/** Tracking of 16-bit RTP sequence numbers, after section A.1 of RFC 3550. */
module RtpSession {
  import ModArith

  const SEQ_MOD := 0x1_0000
  const UINT32_MOD := 0x1_0000_0000
  const MAX_DROPOUT := 3000
  const MAX_MISORDER := 1500

  type Seq = s: int | 0 <= s < SEQ_MOD
  type Uint32 = x: int | 0 <= x < UINT32_MOD

  datatype State = State(cycles: Uint32, base: Seq, max: Seq, bad: Uint32, discards: nat)

  function Init(sq: Seq, discards: nat): State {
    State(0, sq, sq, SEQ_MOD + 1, discards)
  }

  /** The number `d` places after `sn` on the 16-bit circle. */
  function Later(sn: Seq, d: nat): Seq {
    (sn as int + d) % SEQ_MOD
  }

  /** How far `sq` is ahead of `max`, going forward around the circle. */
  function Ahead(max: Seq, sq: Seq): Seq {
    (sq - max) % SEQ_MOD
  }

  /** The state after a packet, and whether the packet is accepted. */
  function Update(st: State, sq: Seq): (State, bool) {
    var d := Ahead(st.max, sq);
    if d < MAX_DROPOUT then
      (st.(cycles := if sq < st.max then (st.cycles + SEQ_MOD) % UINT32_MOD else st.cycles, max := sq), true)
    else if d <= SEQ_MOD - MAX_MISORDER then
      if sq == st.bad then (Init(sq, st.discards), true)
      else (st.(bad := (sq + 1) % SEQ_MOD, discards := st.discards + 1), false)
    else
      (st, true)
  }

  class Session {
    var cycles: Uint32
    var base: Seq
    var max: Seq
    var bad: Uint32
    var discards: nat

    function View(): State
      reads this
    {
      State(cycles, base, max, bad, discards)
    }

    constructor ()
      ensures View() == State(0, 0, 0, 0, 0)
    {
      cycles, base, max, bad, discards := 0, 0, 0, 0, 0;
    }

    method InitSeq(sq: Seq)
      modifies this
      ensures View() == Init(sq, old(discards))
    {
      base := sq;
      max := sq;
      bad := SEQ_MOD + 1;
      cycles := 0;
    }

    method UpdateSeq(sq: Seq) returns (ok: bool)
      modifies this
      ensures (View(), ok) == Update(old(View()), sq)
    {
      var udelta := (sq - max) % SEQ_MOD;
      if udelta < MAX_DROPOUT {
        if sq < max {
          cycles := (cycles + SEQ_MOD) % UINT32_MOD;
        }
        max := sq;
      } else if udelta <= SEQ_MOD - MAX_MISORDER {
        if sq == bad {
          InitSeq(sq);
        } else {
          bad := (sq + 1) % SEQ_MOD;
          discards := discards + 1;
          return false;
        }
      }
      return true;
    }
  }

  // ----- reconstruction of the unbounded sequence number

  /** The state stands for `top`, the largest unbounded sequence number so far. */
  ghost predicate Tracks(st: State, top: nat) {
    st.max == top % SEQ_MOD && (st.cycles + st.max) % UINT32_MOD == top % UINT32_MOD
  }

  ghost predicate InWindow(top: nat, t: nat) {
    top - 1500 < t < top + 3000
  }

  function Larger(a: nat, b: nat): nat {
    if a < b then b else a
  }

  /** The distance around the circle is the distance between the unbounded numbers. */
  lemma AheadIs(top: nat, t: nat)
    ensures Ahead(top % SEQ_MOD, t % SEQ_MOD) == (t - top) % SEQ_MOD
  {
    var a, b := t / SEQ_MOD, top / SEQ_MOD;
    ModArith.Shift(t % SEQ_MOD - top % SEQ_MOD, a - b, SEQ_MOD);
    assert t - top == t % SEQ_MOD - top % SEQ_MOD + (a - b) * SEQ_MOD;
  }

  /** Going forward by less than the modulus wraps exactly when the result is smaller. */
  lemma WrapOnce(top: nat, d: nat)
    requires d < SEQ_MOD
    ensures var a, b := top % SEQ_MOD, (top + d) % SEQ_MOD; b == if b < a then a + d - SEQ_MOD else a + d
  {
    ModArith.Sum(top, d, SEQ_MOD);
    var a := top % SEQ_MOD;
    ModArith.Shift(a + d, -1, SEQ_MOD);
  }

  /** The cycle count, raised when the number wraps, and the number still stand for the maximum. */
  lemma ForwardTracks(cycles: nat, top: nat, d: nat)
    requires (cycles + top % SEQ_MOD) % UINT32_MOD == top % UINT32_MOD && d < SEQ_MOD
    ensures var max, sq := top % SEQ_MOD, (top + d) % SEQ_MOD;
            var c' := if sq < max then (cycles + SEQ_MOD) % UINT32_MOD else cycles;
            (c' + sq) % UINT32_MOD == (top + d) % UINT32_MOD
  {
    var max, sq := top % SEQ_MOD, (top + d) % SEQ_MOD;
    WrapOnce(top, d);
    if sq < max {
      ModArith.Sum(cycles + SEQ_MOD, sq, UINT32_MOD);
    }
    ModArith.Sum(cycles + max, d, UINT32_MOD);
    ModArith.Sum(top, d, UINT32_MOD);
  }

  /** A packet whose unbounded number lies in the window around the running maximum is
      accepted, and the state then stands for the new maximum. */
  lemma {:induction false} UpdateTracks(st: State, top: nat, t: nat)
    requires Tracks(st, top) && InWindow(top, t)
    ensures var (st', ok) := Update(st, t % SEQ_MOD); ok && Tracks(st', Larger(top, t))
  {
    AheadIs(top, t);
    ModArith.Small(t - top, SEQ_MOD);
    if t >= top {
      ForwardTracks(st.cycles, top, t - top);
    }
  }

  ghost predicate AllInWindow(top: nat, ts: seq<nat>)
    decreases |ts|
  {
    ts != [] ==> InWindow(top, ts[0]) && AllInWindow(Larger(top, ts[0]), ts[1..])
  }

  ghost function Top(top: nat, ts: seq<nat>): nat
    decreases |ts|
  {
    if ts == [] then top else Top(Larger(top, ts[0]), ts[1..])
  }

  /** The state after a run of packets, and whether all of them were accepted. */
  ghost function Feed(st: State, ts: seq<nat>): (State, bool)
    decreases |ts|
  {
    if ts == [] then (st, true)
    else
      var (st', ok) := Update(st, ts[0] % SEQ_MOD);
      var (st'', oks) := Feed(st', ts[1..]);
      (st'', ok && oks)
  }

  lemma {:induction false} FeedTracks(st: State, top: nat, ts: seq<nat>)
    requires Tracks(st, top) && AllInWindow(top, ts)
    ensures var (st', oks) := Feed(st, ts); oks && Tracks(st', Top(top, ts))
    decreases |ts|
  {
    if ts != [] {
      UpdateTracks(st, top, ts[0]);
      FeedTracks(Update(st, ts[0] % SEQ_MOD).0, Larger(top, ts[0]), ts[1..]);
    }
  }

  lemma {:induction false} UpdateKeeps(st: State, top: nat, t: nat)
    requires st.max == top % SEQ_MOD && InWindow(top, t)
    ensures var st' := Update(st, t % SEQ_MOD).0;
            st'.max == Larger(top, t) % SEQ_MOD && st'.bad == st.bad && st'.base == st.base
  {
    AheadIs(top, t);
    ModArith.Small(t - top, SEQ_MOD);
  }

  lemma {:induction false} FeedKeeps(st: State, top: nat, ts: seq<nat>)
    requires st.max == top % SEQ_MOD && AllInWindow(top, ts)
    ensures var st' := Feed(st, ts).0; st'.bad == st.bad && st'.base == st.base
    decreases |ts|
  {
    if ts != [] {
      UpdateKeeps(st, top, ts[0]);
      FeedKeeps(Update(st, ts[0] % SEQ_MOD).0, Larger(top, ts[0]), ts[1..]);
    }
  }

  /** Sequence reconstruction, across any number of wraps: from the first packet on, if
      each packet's unbounded number is at most 1499 below and at most 2999 above the
      running maximum, all are accepted and `cycles + max` is that maximum mod 2^32. */
  lemma {:induction false} Reconstruction(first: Seq, discards: nat, ts: seq<nat>)
    requires AllInWindow(first, ts)
    ensures var (st, oks) := Feed(Init(first, discards), ts);
            oks && st.base == first && (st.cycles + st.max) % 0x1_0000_0000 == Top(first, ts) % 0x1_0000_0000
  {
    FeedTracks(Init(first, discards), first, ts);
    FeedKeeps(Init(first, discards), first, ts);
  }

  /** The window is exact: of the numbers in reach of the 16-bit difference, the ones
      outside it are refused, except the one that a previous refusal has put on probation. */
  lemma {:induction false} AcceptedIff(st: State, top: nat, t: nat)
    requires Tracks(st, top) && top - 32768 <= t < top + 32768
    ensures Update(st, t % SEQ_MOD).1 <==> InWindow(top, t) || t % SEQ_MOD == st.bad
  {
    AheadIs(top, t);
    ModArith.Small(t - top, SEQ_MOD);
  }

  /** After a run of packets in the window, from the first packet on, the next one, if in
      reach, is accepted exactly when it is at most 1499 below and at most 2999 above the
      largest number so far: none is on probation. */
  lemma {:induction false} NextAcceptedIff(first: Seq, discards: nat, ts: seq<nat>, t: nat)
    requires AllInWindow(first, ts) && Top(first, ts) - 32768 <= t < Top(first, ts) + 32768
    ensures Update(Feed(Init(first, discards), ts).0, t % 0x1_0000).1 <==> -1500 < t - Top(first, ts) < 3000
  {
    FeedTracks(Init(first, discards), first, ts);
    FeedKeeps(Init(first, discards), first, ts);
    AcceptedIff(Feed(Init(first, discards), ts).0, Top(first, ts), t);
  }

  /** A sender that restarts elsewhere is refused once and accepted with its next
      packet, from which the count starts anew. */
  lemma {:induction false} RestartTakesTwo(st: State, sq: Seq)
    requires 3000 <= (sq - st.max) % 0x1_0000 < 64036 && sq != st.bad
    ensures var (st1, ok1) := Update(st, sq);
            var next: Seq := (sq + 1) % SEQ_MOD;
            var (st2, ok2) := Update(st1, next);
            !ok1 && ok2 && st2 == Init(next, st.discards + 1) && Tracks(st2, next)
  {
    var d := Ahead(st.max, sq);
    ModArith.Sum(sq - st.max, 1, SEQ_MOD);
    ModArith.Small(d + 1, SEQ_MOD);
    var max: int := st.max;
    ModArith.Sum(sq + 1, -max, SEQ_MOD);
  }
}
