/** Interarrival jitter in sixteenths of a clock tick, after section A.8 of RFC 3550. */
module Jitter {
  import opened Common
  import opened RtpSession

  /** Differences from this on (five seconds of video) are taken for jumps and ignored. */
  const JUMP := 450000

  datatype JitterState = Jittered(lastMs: int, lastTs: int, q4: Uint32, jitter: Uint32)

  function TruncatedDiv(a: int, b: int): int
    requires b > 0
  {
    if a >= 0 then a / b else -((-a) / b)
  }

  function Abs(x: int): nat {
    if x < 0 then -x else x
  }

  /** Milliseconds as clock ticks, cut to 32 bits. */
  function Ticks(ms: int, clockRate: nat): Uint32 {
    TruncatedDiv(ms * clockRate, 1000) % UINT32_MOD
  }

  /** How far the time between two arrivals is from that between their timestamps, in
      clock ticks; the timestamps are not taken modulo 2^32. */
  function Difference(st: JitterState, clockRate: nat, ts: Uint32, ms: int): nat {
    Abs(Ticks(ms - st.lastMs, clockRate) - (ts - st.lastTs))
  }

  /** One step of the filter, in the 32-bit arithmetic of the source. */
  function Filter(q4: Uint32, diff: nat): Uint32
    requires diff < JUMP
  {
    (q4 + (Signed32(16 * diff - q4) + 8) / 16) % UINT32_MOD
  }

  /** A step with a difference, small or not. */
  function Step(q4: Uint32, diff: nat): Uint32 {
    if diff < JUMP then Filter(q4, diff) else q4
  }

  function Updated(st: JitterState, clockRate: nat, ts: Uint32, ms: int): JitterState {
    if st.lastMs == 0 || st.lastTs == 0 then st
    else
      var diff := Difference(st, clockRate, ts, ms);
      if diff < JUMP then st.(q4 := Filter(st.q4, diff), jitter := Filter(st.q4, diff) / 16) else st
  }

  class Estimator {
    var lastMs: int
    var lastTs: int
    var q4: Uint32
    var jitter: Uint32

    function View(): JitterState
      reads this
    {
      Jittered(lastMs, lastTs, q4, jitter)
    }

    constructor ()
      ensures View() == Jittered(0, 0, 0, 0)
    {
      lastMs, lastTs, q4, jitter := 0, 0, 0, 0;
    }

    method GenerateJitter(clockRate: nat, ts: Uint32, ms: int) returns (ok: bool)
      modifies this`q4, this`jitter
      ensures ok <==> clockRate > 0
      ensures View() == if ok then Updated(old(View()), clockRate, ts, ms) else old(View())
    {
      if clockRate == 0 {
        return false;
      }
      if lastMs == 0 || lastTs == 0 {
        return true;
      }
      var elapsed: int := Ticks(ms - lastMs, clockRate);
      var diff := Abs(elapsed - (ts - lastTs));
      if diff < JUMP {
        q4 := Filter(q4, diff);
        jitter := q4 / 16;
      }
      ok := true;
    }
  }

  /** A packet's timestamp and the time of its arrival. */
  datatype Arrival = Arrival(ts: Uint32, ms: int)

  function Received(st: JitterState, clockRate: nat, at: Arrival): JitterState {
    Updated(st, clockRate, at.ts, at.ms).(lastMs := at.ms, lastTs := at.ts)
  }

  function ReceivedAll(st: JitterState, clockRate: nat, arrivals: seq<Arrival>): JitterState
    decreases |arrivals|
  {
    if arrivals == [] then st else ReceivedAll(Received(st, clockRate, arrivals[0]), clockRate, arrivals[1..])
  }

  /** From a state in range no 32-bit operation overflows: the step is the exact one, it
      stays in range, and it moves towards 16 times the difference without passing it. */
  lemma FilterExact(q4: Uint32, diff: nat)
    requires q4 <= 16 * 449999 && diff < 450000
    ensures Filter(q4, diff) == q4 + (16 * diff - q4 + 8) / 16
    ensures Filter(q4, diff) <= 16 * 449999
    ensures q4 <= 16 * diff ==> q4 <= Filter(q4, diff) <= 16 * diff
    ensures q4 >= 16 * diff ==> q4 >= Filter(q4, diff) >= 16 * diff
  {
    assert Signed32(16 * diff - q4) == 16 * diff - q4;
  }

  /** One step of section A.8 of RFC 3550. */
  function Rfc3550Step(q4: int, diff: nat): int {
    q4 + diff - (q4 + 8) / 16
  }

  /** The source rounds a state of 8 modulo 16 the other way, and only that. */
  lemma DiffersFromRfc3550(q4: Uint32, diff: nat)
    requires q4 <= 16 * 449999 && diff < 450000
    ensures Filter(q4, diff) == Rfc3550Step(q4, diff) + (if q4 % 16 == 8 then 1 else 0)
  {
    FilterExact(q4, diff);
    var k, r := q4 / 16, q4 % 16;
    assert q4 == 16 * k + r;
    assert (16 * diff - q4 + 8) / 16 == diff - k + (8 - r) / 16;
  }

  function FilterAll(q4: Uint32, diffs: seq<nat>): Uint32
    decreases |diffs|
  {
    if diffs == [] then q4 else FilterAll(Step(q4, diffs[0]), diffs[1..])
  }

  /** Whatever the differences, the state never leaves its range. */
  lemma {:induction false} StaysInRange(q4: Uint32, diffs: seq<nat>)
    requires q4 <= 16 * 449999
    ensures FilterAll(q4, diffs) <= 16 * 449999
    decreases |diffs|
  {
    if diffs != [] {
      if diffs[0] < 450000 {
        FilterExact(q4, diffs[0]);
      }
      StaysInRange(Step(q4, diffs[0]), diffs[1..]);
    }
  }

  predicate Settled(q4: Uint32, diff: nat) {
    -8 <= 16 * diff - q4 < 8
  }

  /** Under a constant difference the state settles within 8 of 16 times the difference
      and stays there; it moves exactly as long as it has not settled. */
  lemma {:induction false} Settles(q4: Uint32, diff: nat, diffs: seq<nat>)
    requires q4 <= 16 * 449999 && diff < 450000 && forall i :: 0 <= i < |diffs| ==> diffs[i] == diff
    ensures Filter(q4, diff) == q4 <==> Settled(q4, diff)
    ensures |diffs| >= Abs(16 * diff - q4) ==> Settled(FilterAll(q4, diffs), diff)
    ensures Settled(q4, diff) ==> FilterAll(q4, diffs) == q4
    decreases |diffs|
  {
    FilterExact(q4, diff);
    if diffs != [] {
      Settles(Filter(q4, diff), diff, diffs[1..]);
    }
  }

  // ----- from the arrivals

  /** Since the last packet the time, in whole clock ticks, has advanced by `d` more than the
      timestamp, or by `d` less. */
  predicate Strays(st: JitterState, clockRate: nat, at: Arrival, d: nat) {
    var elapsed, shown := (at.ms - st.lastMs) * clockRate, at.ts - st.lastTs;
    && st.lastMs > 0 && st.lastTs != 0 && at.ms >= st.lastMs && at.ts != 0
    && elapsed < 1000 * 0x1_0000_0000
    && (1000 * (shown + d) <= elapsed < 1000 * (shown + d + 1) || 1000 * (shown - d) <= elapsed < 1000 * (shown - d + 1))
  }

  lemma Whole(x: nat, ticks: int)
    requires 1000 * ticks <= x < 1000 * (ticks + 1) && x < 1000 * 0x1_0000_0000
    ensures TruncatedDiv(x, 1000) % UINT32_MOD == ticks
  {
  }

  lemma {:induction false} StrayIs(st: JitterState, clockRate: nat, at: Arrival, d: nat)
    requires Strays(st, clockRate, at, d)
    ensures Difference(st, clockRate, at.ts, at.ms) == d
  {
    var elapsed, shown := (at.ms - st.lastMs) * clockRate, at.ts - st.lastTs;
    if 1000 * (shown + d) <= elapsed < 1000 * (shown + d + 1) {
      Whole(elapsed, shown + d);
    } else {
      Whole(elapsed, shown - d);
    }
  }

  ghost predicate AllStray(st: JitterState, clockRate: nat, arrivals: seq<Arrival>, d: nat)
    decreases |arrivals|
  {
    arrivals != [] ==>
      Strays(st, clockRate, arrivals[0], d) && AllStray(Received(st, clockRate, arrivals[0]), clockRate, arrivals[1..], d)
  }

  lemma {:induction false} StreamFilters(st: JitterState, clockRate: nat, arrivals: seq<Arrival>, d: nat)
    requires d < 450000 && AllStray(st, clockRate, arrivals, d)
    ensures var st' := ReceivedAll(st, clockRate, arrivals);
            && st'.q4 == FilterAll(st.q4, seq(|arrivals|, _ => d))
            && (arrivals != [] ==> st'.jitter == st'.q4 / 16)
    decreases |arrivals|
  {
    if arrivals != [] {
      StrayIs(st, clockRate, arrivals[0], d);
      StreamFilters(Received(st, clockRate, arrivals[0]), clockRate, arrivals[1..], d);
      assert seq(|arrivals|, _ => d)[1..] == seq(|arrivals[1..]|, _ => d);
    }
  }

  /** A stream each of whose packets comes `d` ticks early or late: once enough have come,
      the jitter reported is `d` or `d` - 1, whatever it was before. */
  lemma {:induction false} StreamSettles(st: JitterState, clockRate: nat, arrivals: seq<Arrival>, d: nat)
    requires st.q4 <= 16 * 449999 && d < 450000 && AllStray(st, clockRate, arrivals, d)
    requires arrivals != [] && |arrivals| >= Abs(16 * d - st.q4)
    ensures d - 1 <= ReceivedAll(st, clockRate, arrivals).jitter <= d
  {
    StreamFilters(st, clockRate, arrivals, d);
    Settles(st.q4, d, seq(|arrivals|, _ => d));
  }

  /** Without a packet before, a time or timestamp of 0 counting as none, nothing changes. */
  lemma {:induction false} FirstIsIgnored(st: JitterState, clockRate: nat, at: Arrival)
    requires st.lastMs == 0 || st.lastTs == 0
    ensures Received(st, clockRate, at) == Jittered(at.ms, at.ts, st.q4, st.jitter)
  {
  }

  /** A packet that strays by five seconds of video or more changes nothing. */
  lemma {:induction false} JumpIsIgnored(st: JitterState, clockRate: nat, at: Arrival, d: nat)
    requires Strays(st, clockRate, at, d) && d >= 450000
    ensures var st' := Received(st, clockRate, at); st'.q4 == st.q4 && st'.jitter == st.jitter
  {
    StrayIs(st, clockRate, at, d);
  }

  lemma Backwards(x: int)
    requires -1000 * 0x8000_0000 <= x <= -1000
    ensures TruncatedDiv(x, 1000) % UINT32_MOD >= 0x8000_0000
  {
    assert -0x8000_0000 <= TruncatedDiv(x, 1000) <= -1;
  }

  /** Nor does one for which the clock has gone back by a tick or more: the ticks elapsed are
      cut to 32 bits without a sign. */
  lemma {:induction false} BackwardsIsIgnored(st: JitterState, clockRate: nat, at: Arrival)
    requires -1000 * 0x8000_0000 <= (at.ms - st.lastMs) * clockRate <= -1000 && at.ts - st.lastTs <= 0x4000_0000
    ensures var st' := Received(st, clockRate, at); st'.q4 == st.q4 && st'.jitter == st.jitter
  {
    Backwards((at.ms - st.lastMs) * clockRate);
  }
}
