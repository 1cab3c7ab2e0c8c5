/** Whole runs of the loss tracking: packets and timer ticks, with their history. */
module NackRuns {
  import opened RtpSession
  import opened NackGenerator
  import ModArith

  /** A tick carries the losses it leaves; `Trimmed` fixes which those are. */
  datatype Event = Packet(sn: Seq) | Tick(now: int, left: Losses)

  /** What has happened: the first and all numbers received, the losses given up or
      displaced by a tick, and the times at which each number was requested. */
  datatype Run = Run(st: NackState, first: Seq, received: set<Seq>, dropped: set<Seq>,
                     asks: map<Seq, seq<int>>, clock: int)

  function Start(clock: int): Run {
    Run(Nacks(false, 0, map[]), 0, {}, {}, map[], clock)
  }

  function AsksFor(r: Run, k: Seq): seq<int> {
    if k in r.asks then r.asks[k] else []
  }

  /** Within one 16-bit cycle: packets are less than half the circle from the newest, and
      the clock does not go back. */
  ghost predicate Possible(r: Run, rtt: int, e: Event) {
    match e
    case Packet(sn) => r.st.init ==> -32768 < sn as int - r.st.last as int < 32768
    case Tick(now, left) => now >= r.clock && Trimmed(Asked(r.st.losses, now, rtt), left)
  }

  function Next(r: Run, rtt: int, e: Event): Run {
    match e
    case Packet(sn) =>
      r.(st := Seen(r.st, sn), first := if r.st.init then r.first else sn, received := r.received + {sn})
    case Tick(now, left) =>
      var due := Due(r.st.losses, now, rtt);
      r.(st := r.st.(losses := left), dropped := r.dropped + (r.st.losses.Keys - left.Keys), clock := now,
         asks := map k | k in r.asks.Keys + due :: if k in due then AsksFor(r, k) + [now] else r.asks[k])
  }

  /** The losses are exactly the numbers between the first and the newest that were
      neither received nor dropped. */
  ghost predicate Exact(r: Run) {
    && (!r.st.init ==> r.received == {} && r.dropped == {} && r.st.losses == map[])
    && (r.st.init ==> r.first <= r.st.last && r.first in r.received && r.st.last in r.received)
    && (forall k :: k in r.received ==> k <= r.st.last)
    && (forall k :: k in r.dropped ==> r.first < k < r.st.last)
    && (forall k :: k in r.st.losses <==> r.st.init && r.first < k < r.st.last && k !in r.received && k !in r.dropped)
  }

  ghost predicate Spaced(times: seq<int>, rtt: int) {
    forall i :: 0 < i < |times| ==> times[i] - times[i - 1] >= rtt
  }

  /** The requests made for `k` agree with its entry, are at most 81 and far enough apart. */
  ghost predicate Paced(r: Run, rtt: int, k: Seq) {
    var a := AsksFor(r, k);
    && |a| <= RETRY_MAX + 1 && Spaced(a, rtt)
    && (a != [] ==> r.st.init && r.first < k < r.st.last)
    && (k in r.st.losses ==>
          var i := r.st.losses[k]; i.retry == |a| && i.sentMs == if a == [] then 0 else a[|a| - 1])
  }

  ghost predicate Good(r: Run, rtt: int) {
    Exact(r) && forall k :: Paced(r, rtt, k)
  }

  lemma {:induction false} PacketExact(r: Run, rtt: int, sn: Seq)
    requires Exact(r) && Possible(r, rtt, Packet(sn))
    ensures Exact(Next(r, rtt, Packet(sn)))
  {
    var st, r' := r.st, Next(r, rtt, Packet(sn));
    if st.init && sn > st.last + 1 {
      assert (st.last + 1) % SEQ_MOD == st.last + 1;
      assert r'.st.losses.Keys == st.losses.Keys + Between(st.last + 1, sn);
    }
  }

  lemma {:induction false} PacketPaced(r: Run, rtt: int, sn: Seq, k: Seq)
    requires Exact(r) && Possible(r, rtt, Packet(sn)) && Paced(r, rtt, k)
    ensures Paced(Next(r, rtt, Packet(sn)), rtt, k)
  {
    var r' := Next(r, rtt, Packet(sn));
    assert AsksFor(r', k) == AsksFor(r, k);
    if k in r'.st.losses && k !in r.st.losses {
      assert k > r.st.last;
    }
  }

  lemma {:induction false} LeftAreLosses(m: Losses, rtt: int, now: int, left: Losses)
    requires Trimmed(Asked(m, now, rtt), left)
    ensures forall k :: k in left ==> k in m
  {
    assert Asked(m, now, rtt).Keys <= m.Keys;
  }

  lemma {:induction false} TickExact(r: Run, rtt: int, now: int, left: Losses)
    requires Exact(r) && Possible(r, rtt, Tick(now, left))
    ensures Exact(Next(r, rtt, Tick(now, left)))
  {
    LeftAreLosses(r.st.losses, rtt, now, left);
    var r' := Next(r, rtt, Tick(now, left));
    assert forall k :: k in r'.dropped <==> k in r.dropped || (k in r.st.losses && k !in left);
  }

  lemma {:induction false} TickPaced(r: Run, rtt: int, now: int, left: Losses, k: Seq)
    requires Exact(r) && Possible(r, rtt, Tick(now, left)) && Paced(r, rtt, k)
    ensures Paced(Next(r, rtt, Tick(now, left)), rtt, k)
  {
    var r' := Next(r, rtt, Tick(now, left));
    var a, a' := AsksFor(r, k), AsksFor(r', k);
    assert a' == if k in Due(r.st.losses, now, rtt) then a + [now] else a;
    if k in left {
      assert left[k] == Asked(r.st.losses, now, rtt)[k];
    }
  }

  lemma {:induction false} StepGood(r: Run, rtt: int, e: Event)
    requires Good(r, rtt) && Possible(r, rtt, e)
    ensures Good(Next(r, rtt, e), rtt)
  {
    match e {
      case Packet(sn) =>
        PacketExact(r, rtt, sn);
        forall k: Seq
          ensures Paced(Next(r, rtt, e), rtt, k)
        {
          PacketPaced(r, rtt, sn, k);
        }
      case Tick(now, left) =>
        TickExact(r, rtt, now, left);
        forall k: Seq
          ensures Paced(Next(r, rtt, e), rtt, k)
        {
          TickPaced(r, rtt, now, left, k);
        }
    }
  }

  ghost predicate Runs(r: Run, rtt: int, es: seq<Event>)
    decreases |es|
  {
    es != [] ==> Possible(r, rtt, es[0]) && Runs(Next(r, rtt, es[0]), rtt, es[1..])
  }

  ghost function Exec(r: Run, rtt: int, es: seq<Event>): Run
    decreases |es|
  {
    if es == [] then r else Exec(Next(r, rtt, es[0]), rtt, es[1..])
  }

  lemma {:induction false} RunGood(r: Run, rtt: int, es: seq<Event>)
    requires Good(r, rtt) && Runs(r, rtt, es)
    ensures Good(Exec(r, rtt, es), rtt)
    decreases |es|
  {
    if es != [] {
      StepGood(r, rtt, es[0]);
      RunGood(Next(r, rtt, es[0]), rtt, es[1..]);
    }
  }

  /** After any run within one cycle the losses are exactly the numbers strictly between
      the first and the newest received, less those received and those dropped. */
  lemma {:induction false} LossesAreExact(clock: int, rtt: int, es: seq<Event>, k: Seq)
    requires Runs(Start(clock), rtt, es)
    ensures var r := Exec(Start(clock), rtt, es);
            k in r.st.losses <==> r.st.init && r.first < k < r.st.last && k !in r.received && k !in r.dropped
  {
    RunGood(Start(clock), rtt, es);
  }

  /** And every number has been requested at most 81 times, at least a round trip apart. */
  lemma {:induction false} RequestsArePaced(clock: int, rtt: int, es: seq<Event>, k: Seq)
    requires Runs(Start(clock), rtt, es)
    ensures var a := AsksFor(Exec(Start(clock), rtt, es), k); |a| <= 81 && Spaced(a, rtt)
  {
    RunGood(Start(clock), rtt, es);
    assert Paced(Exec(Start(clock), rtt, es), rtt, k);
  }

  /** When a number was last requested; 0 before the first time. */
  function LastAsk(a: seq<int>): int {
    if a == [] then 0 else a[|a| - 1]
  }

  /** The losses above `k` that have not been requested 81 times. */
  ghost function Above(r: Run, k: Seq): set<Seq> {
    set j | j in r.st.losses && j > k && |AsksFor(r, j)| <= 80
  }

  lemma {:induction false} SmallerSet(a: set<Seq>, b: set<Seq>)
    requires a <= b
    ensures |a| <= |b|
  {
    assert b == a + (b - a);
  }

  /** Of the entries that are not given up, the tick displaces those below 5000 others. */
  lemma {:induction false} TrimmedIff(m: Losses, left: Losses, k: Seq)
    requires Trimmed(m, left) && k in m
    ensures k in left <==> |set j | j in m && j > k| < 5000
  {
    var above := set j | j in m && j > k;
    if k in left {
      forall j | j in above
        ensures j in left
      {
        assert j in m && j > k;
      }
      SmallerSet(above + {k}, left.Keys);
    } else {
      forall j | j in left
        ensures j in above
      {
        assert k in m && k !in left;
      }
      SmallerSet(left.Keys, above);
    }
  }

  lemma {:induction false} AboveIs(r: Run, rtt: int, now: int, k: Seq)
    requires Good(r, rtt)
    ensures (set j | j in Asked(r.st.losses, now, rtt) && j > k) == Above(r, k)
  {
    forall j | j in r.st.losses
      ensures r.st.losses[j].retry == |AsksFor(r, j)|
    {
      assert Paced(r, rtt, j);
    }
  }

  /** What a tick requests, from the history alone: a number that is lost, has been requested
      at most 80 times, and not within the last round trip. */
  lemma {:induction false} TickAsksIff(r: Run, rtt: int, now: int, left: Losses, k: Seq)
    requires Good(r, rtt) && Possible(r, rtt, Tick(now, left))
    ensures var a, a' := AsksFor(r, k), AsksFor(Next(r, rtt, Tick(now, left)), k);
            a' == if k in r.st.losses && |a| <= 80 && now - LastAsk(a) >= rtt then a + [now] else a
  {
    assert Paced(r, rtt, k);
  }

  /** What it drops: a number that has been requested 81 times, or lies below 5000 others
      that have not. */
  lemma {:induction false} TickDropsIff(r: Run, rtt: int, now: int, left: Losses, k: Seq)
    requires Good(r, rtt) && Possible(r, rtt, Tick(now, left)) && k in r.st.losses
    ensures k !in left <==> |AsksFor(r, k)| == 81 || |Above(r, k)| >= 5000
  {
    assert Paced(r, rtt, k);
    if |AsksFor(r, k)| <= 80 {
      AboveIs(r, rtt, now, k);
      TrimmedIff(Asked(r.st.losses, now, rtt), left, k);
    }
  }

  /** So over any run: what the next tick requests and what it drops. */
  lemma {:induction false} TicksAreExact(clock: int, rtt: int, es: seq<Event>, now: int, left: Losses, k: Seq)
    requires Runs(Start(clock), rtt, es) && Possible(Exec(Start(clock), rtt, es), rtt, Tick(now, left))
    ensures var r := Exec(Start(clock), rtt, es);
            var a, a' := AsksFor(r, k), AsksFor(Next(r, rtt, Tick(now, left)), k);
            && a' == (if k in r.st.losses && |a| <= 80 && now - LastAsk(a) >= rtt then a + [now] else a)
            && (k in r.st.losses ==> (k !in left <==> |a| == 81 || |Above(r, k)| >= 5000))
  {
    RunGood(Start(clock), rtt, es);
    var r := Exec(Start(clock), rtt, es);
    TickAsksIff(r, rtt, now, left, k);
    if k in r.st.losses {
      TickDropsIff(r, rtt, now, left, k);
    }
  }

  /** Every number skipped by a packet ahead of the newest one is recorded as lost. */
  ghost predicate GapRecorded(st: NackState, sn: Seq) {
    forall d: nat :: 0 < d < Ahead(st.last, sn) ==> Later(st.last, d) in Seen(st, sn).losses
  }

  /** The gap before a packet that is neither the newest nor older is recorded in full
      exactly when it does not straddle the wrap of the 16-bit numbers: when the packet's
      number is the greater one, or the newest number is 65535 itself. */
  lemma {:induction false} GapRecordedIff(r: Run, sn: Seq)
    requires Exact(r) && r.st.init && sn != r.st.last && !SeqLowerThan(sn, r.st.last)
    ensures GapRecorded(r.st, sn) <==> r.st.last < sn || r.st.last == SEQ_MOD - 1
  {
    var last: int, st' := r.st.last, Seen(r.st, sn);
    var ahead: int := Ahead(last, sn);
    ModArith.Small(sn - last, SEQ_MOD);
    ModArith.Small(last + 1, SEQ_MOD);
    if last < sn {
      forall d: nat | 0 < d < ahead
        ensures Later(last, d) in st'.losses
      {
        ModArith.Small(last + d, SEQ_MOD);
      }
    } else if last == SEQ_MOD - 1 {
      forall d: nat | 0 < d < ahead
        ensures Later(last, d) in st'.losses
      {
        ModArith.Shift(last + d, -1, SEQ_MOD);
        ModArith.Small(last + d - SEQ_MOD, SEQ_MOD);
      }
      ModArith.Shift(last + 1, -1, SEQ_MOD);
      ModArith.Small(0, SEQ_MOD);
    } else {
      assert Later(last, 1) == last + 1;
      assert Between(last + 1, sn) == {};
      assert last + 1 !in st'.losses;
    }
  }

  /** For instance, of the numbers skipped between 65533 and 1 none is recorded. */
  lemma StraddlingGap()
    ensures var st := Nacks(true, 65533, map[]);
            var st' := Seen(st, 1);
            st'.losses == map[] && Later(65533, 1) == 65534 && Later(65533, 2) == 65535 && Later(65533, 3) == 0
  {
    assert Between(65534, 1) == {};
    assert WithGap(map[], {}) == map[];
  }
}
