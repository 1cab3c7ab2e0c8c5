/** Whole runs of the buffer that puts packets in order. */
module JitterRuns {
  import opened RtpSession
  import opened NackGenerator
  import opened JitterBuffer
  import ModArith

  /** What has been pushed and what has been delivered. */
  datatype Run = Run(b: Buffer, seen: set<Pkt>, delivered: seq<Pkt>)

  /** Events carry their outcome, which `Pushes` and `Expires` fix. */
  datatype Event = Push(p: Pkt, b: Buffer, out: seq<Pkt>) | Timer(now: int, b: Buffer, out: seq<Pkt>)

  /** Every packet object is pushed once. */
  ghost predicate Possible(r: Run, e: Event, classify: Classifier, maxDelay: nat) {
    match e
    case Push(p, b, out) => p !in r.seen && Pushes(r.b, p, classify, b, out)
    case Timer(now, b, out) => Expires(r.b, now, maxDelay, b, out)
  }

  function Next(r: Run, e: Event): Run {
    Run(e.b, if e.Push? then r.seen + {e.p} else r.seen, r.delivered + e.out)
  }

  ghost predicate Distinct(s: seq<Pkt>) {
    forall i, j :: 0 <= i < j < |s| ==> s[i] != s[j]
  }

  /** The keys are the packets' numbers, and nothing that waits has been delivered. */
  ghost predicate Sound(r: Run) {
    && Keyed(r.b.packets)
    && (forall p :: p in r.delivered ==> p in r.seen)
    && (forall k :: k in r.b.packets ==> r.b.packets[k] in r.seen && r.b.packets[k] !in r.delivered)
    && Distinct(r.delivered)
  }

  lemma LaterAfter(sn: Seq, i: nat)
    ensures Later(After(sn), i) == Later(sn, i + 1) && Later(sn, 0) == sn
  {
    var n: int := sn;
    ModArith.Sum(n + 1, i, SEQ_MOD);
    ModArith.Small(n, SEQ_MOD);
  }

  /** What is drained has consecutive numbers, from the expected one on. */
  lemma {:induction false} DrainedNumbers(m: Packets, expected: Seq, i: nat)
    requires Keyed(m)
    ensures i < |Drain(m, expected).0| ==> Drain(m, expected).0[i].sn == Later(expected, i)
    ensures Drain(m, expected).2 == Later(expected, |Drain(m, expected).0|)
    decreases |m|
  {
    LaterAfter(expected, 0);
    if expected in m {
      SmallerWithout(m, expected);
      var rest := Drain(m - {expected}, After(expected));
      LaterAfter(expected, |rest.0|);
      if i > 0 {
        LaterAfter(expected, i - 1);
      }
      DrainedNumbers(m - {expected}, After(expected), if i > 0 then i - 1 else 0);
    }
  }

  /** It is just what no longer waits. */
  lemma {:induction false} DrainedMembers(m: Packets, expected: Seq)
    requires Keyed(m)
    ensures var r := Drain(m, expected);
            (forall p :: p in r.0 <==> p.sn in m && m[p.sn] == p && p.sn !in r.1) && Distinct(r.0)
    decreases |m|
  {
    if expected in m {
      SmallerWithout(m, expected);
      var p, more := m[expected], Drain(m - {expected}, After(expected)).0;
      DrainedMembers(m - {expected}, After(expected));
      assert forall q :: q in [p] + more <==> q == p || q in more;
      assert p !in more;
    }
  }

  // ----- delivered once, and nothing lost

  lemma {:induction false} DeliverAll(r: Run, b: Buffer, out: seq<Pkt>, seen: set<Pkt>)
    requires Sound(r) && Keyed(b.packets) && r.seen <= seen && Distinct(out)
    requires forall p :: p in out ==> p in seen && p !in r.delivered
    requires forall k :: k in b.packets ==> b.packets[k] in seen && b.packets[k] !in r.delivered && b.packets[k] !in out
    ensures Sound(Run(b, seen, r.delivered + out))
  {
    var all := r.delivered + out;
    forall i, j | 0 <= i < j < |all|
      ensures all[i] != all[j]
    {
      if i < |r.delivered| <= j {
        assert all[j] in out;
      }
    }
  }

  lemma {:induction false} OrderedIsDistinct(out: seq<Pkt>)
    requires forall i, j :: 0 <= i < j < |out| ==> out[i].sn < out[j].sn
    ensures Distinct(out)
  {
  }

  lemma {:induction false} PushSound(r: Run, p: Pkt, b: Buffer, out: seq<Pkt>, classify: Classifier)
    requires Sound(r) && p !in r.seen && Pushes(r.b, p, classify, b, out)
    ensures Sound(Next(r, Push(p, b, out)))
  {
    if r.b.started && classify(r.b.expected, p.sn) == Normal {
      DrainedMembers(r.b.packets, After(r.b.expected));
    } else if r.b.started && classify(r.b.expected, p.sn) in {Reverse, JumpLarge} {
      var init := out[..|out| - 1];
      OrderedIsDistinct(init);
      assert out == init + [p] && forall q :: q in out <==> q in init || q == p;
    }
    DeliverAll(r, b, out, r.seen + {p});
  }

  lemma {:induction false} OutNumbers(out: seq<Pkt>)
    ensures forall p :: p in out ==> p.sn in Numbers(out)
  {
  }

  lemma {:induction false} TimerSound(r: Run, now: int, b: Buffer, out: seq<Pkt>, maxDelay: nat)
    requires Sound(r) && Expires(r.b, now, maxDelay, b, out)
    ensures Sound(Next(r, Timer(now, b, out)))
  {
    OrderedIsDistinct(out);
    OutNumbers(out);
    DeliverAll(r, b, out, r.seen);
  }

  ghost predicate Runs(r: Run, es: seq<Event>, classify: Classifier, maxDelay: nat)
    decreases |es|
  {
    es != [] ==> Possible(r, es[0], classify, maxDelay) && Runs(Next(r, es[0]), es[1..], classify, maxDelay)
  }

  function Exec(r: Run, es: seq<Event>): Run
    decreases |es|
  {
    if es == [] then r else Exec(Next(r, es[0]), es[1..])
  }

  const Fresh := Run(Buffer(false, 0, map[]), {}, [])

  lemma {:induction false} StepSound(r: Run, e: Event, classify: Classifier, maxDelay: nat)
    requires Sound(r) && Possible(r, e, classify, maxDelay)
    ensures Sound(Next(r, e))
  {
    match e {
      case Push(p, b, out) => PushSound(r, p, b, out, classify);
      case Timer(now, b, out) => TimerSound(r, now, b, out, maxDelay);
    }
  }

  lemma {:induction false} RunSound(r: Run, es: seq<Event>, classify: Classifier, maxDelay: nat)
    requires Sound(r) && Runs(r, es, classify, maxDelay)
    ensures Sound(Exec(r, es))
    decreases |es|
  {
    if es != [] {
      StepSound(r, es[0], classify, maxDelay);
      RunSound(Next(r, es[0]), es[1..], classify, maxDelay);
    }
  }

  /** Whatever the classifier, every packet is delivered at most once, only after it was
      pushed, and none that still waits has been delivered. */
  lemma {:induction false} DeliveredOnce(es: seq<Event>, classify: Classifier, maxDelay: nat)
    requires Runs(Fresh, es, classify, maxDelay)
    ensures var r := Exec(Fresh, es);
            Distinct(r.delivered) && (forall p :: p in r.delivered ==> p in r.seen)
            && forall k :: k in r.b.packets ==> r.b.packets[k].sn == k && r.b.packets[k] !in r.delivered
  {
    RunSound(Fresh, es, classify, maxDelay);
  }

  /** A waiting packet stays or is delivered, unless a packet of its own number, ahead of the
      expected one, takes its place. */
  lemma {:induction false} NothingVanishes(r: Run, e: Event, classify: Classifier, maxDelay: nat, k: Seq)
    requires Sound(r) && Possible(r, e, classify, maxDelay) && k in r.b.packets
    ensures var q := r.b.packets[k];
            || (k in e.b.packets && e.b.packets[k] == q) || q in e.out
            || (e.Push? && r.b.started && e.p.sn == k && classify(r.b.expected, k) == LittleJump)
  {
    var q := r.b.packets[k];
    match e {
      case Push(p, b, out) =>
        if r.b.started && classify(r.b.expected, p.sn) == Normal {
          DrainedMembers(r.b.packets, After(r.b.expected));
        } else if r.b.started && classify(r.b.expected, p.sn) in {Reverse, JumpLarge} {
          assert q in out[..|out| - 1];
        }
      case Timer(now, b, out) =>
        if k in Numbers(out) {
          var i :| 0 <= i < |out| && out[i].sn == k;
          assert out[i] in out;
        }
    }
  }

  // ----- what a release gives out

  lemma {:induction false} ReleasedAreDue(m: Packets, out: seq<Pkt>, now: int, maxDelay: nat, p: Pkt, k: Seq)
    requires Keyed(m) && Expired(m, out, now, maxDelay) && p in out && k in m && k <= p.sn
    ensures Overdue(m[k], now, maxDelay)
  {
    if k in Numbers(out) {
      var i :| 0 <= i < |out| && out[i].sn == k;
      assert out[i] in out;
    }
  }

  lemma {:induction false} Least(s: set<Seq>, n: Seq) returns (k: Seq)
    requires n in s
    ensures IsMin(s, k) && k <= n
  {
    HasMin(s);
    k :| IsMin(s, k);
  }

  lemma {:induction false} NumberedOut(m: Packets, out: seq<Pkt>, p: Pkt)
    requires p.sn in m && m[p.sn] == p && forall q :: q in out ==> q.sn in m && m[q.sn] == q
    ensures p.sn in Numbers(out) ==> p in out
  {
    if p.sn in Numbers(out) {
      var i :| 0 <= i < |out| && out[i].sn == p.sn;
      assert out[i] in out;
    }
  }

  lemma {:induction false} HeldIsYoung(m: Packets, out: seq<Pkt>, now: int, maxDelay: nat, p: Pkt)
    requires Expired(m, out, now, maxDelay) && p.sn in m && m[p.sn] == p && p !in out
    ensures exists k :: k in m && k <= p.sn && !Overdue(m[k], now, maxDelay)
  {
    NumberedOut(m, out, p);
    var k := Least(m.Keys - Numbers(out), p.sn);
  }

  lemma {:induction false} OverdueIs(p: Pkt, now: int, maxDelay: nat)
    requires -0x1_0000_0000_0000_0000 < now - p.localMs < 0x1_0000_0000_0000_0000
    ensures Overdue(p, now, maxDelay) <==>
              var d := now - p.localMs; (if d < 0 then d + 0x1_0000_0000_0000_0000 else d) >= maxDelay
  {
    ModArith.Small(now - p.localMs, 0x1_0000_0000_0000_0000);
  }

  lemma {:induction false} DueIff(m: Packets, out: seq<Pkt>, now: int, maxDelay: nat, p: Pkt)
    requires Keyed(m) && Expired(m, out, now, maxDelay)
    ensures p in out <==>
              p.sn in m && m[p.sn] == p && forall k :: k in m && k <= p.sn ==> Overdue(m[k], now, maxDelay)
  {
    if p in out {
      forall k | k in m && k <= p.sn
        ensures Overdue(m[k], now, maxDelay)
      {
        ReleasedAreDue(m, out, now, maxDelay, p, k);
      }
    } else if p.sn in m && m[p.sn] == p {
      HeldIsYoung(m, out, now, maxDelay, p);
    }
  }

  /** A timer event delivers a packet exactly when it waits and no packet up to its number
      has waited for less than the delay. The time waited is computed without a sign, so
      that a packet from the future counts as very old. */
  lemma {:induction false} ReleasedIff(b: Buffer, now: int, maxDelay: nat, b': Buffer, out: seq<Pkt>, p: Pkt)
    requires Keyed(b.packets) && Expires(b, now, maxDelay, b', out)
    requires forall k :: k in b.packets ==>
               -0x1_0000_0000_0000_0000 < now - b.packets[k].localMs < 0x1_0000_0000_0000_0000
    ensures p in out <==>
              && p.sn in b.packets && b.packets[p.sn] == p
              && forall k :: k in b.packets && k <= p.sn ==>
                   var d := now - b.packets[k].localMs;
                   (if d < 0 then d + 0x1_0000_0000_0000_0000 else d) >= maxDelay
  {
    DueIff(b.packets, out, now, maxDelay, p);
    forall k | k in b.packets
      ensures Overdue(b.packets[k], now, maxDelay) <==>
                var d := now - b.packets[k].localMs; (if d < 0 then d + 0x1_0000_0000_0000_0000 else d) >= maxDelay
    {
      OverdueIs(b.packets[k], now, maxDelay);
    }
  }

  lemma {:induction false} RunsAt(r: Run, es: seq<Event>, classify: Classifier, maxDelay: nat, i: nat)
    requires Runs(r, es, classify, maxDelay) && i < |es|
    ensures Possible(Exec(r, es[..i]), es[i], classify, maxDelay)
    decreases i
  {
    if i == 0 {
      assert es[..0] == [];
    } else {
      RunsAt(Next(r, es[0]), es[1..], classify, maxDelay, i - 1);
      assert es[..i][0] == es[0] && es[..i][1..] == es[1..][..i - 1];
    }
  }

  lemma {:induction false} LowestHeld(b: Buffer, now: int, maxDelay: nat, b': Buffer, out: seq<Pkt>, k: Seq)
    requires Expires(b, now, maxDelay, b', out) && IsMin(b'.packets.Keys, k)
    ensures k in b'.packets && !Overdue(b'.packets[k], now, maxDelay)
  {
    assert b'.packets.Keys == b.packets.Keys - Numbers(out);
  }

  /** Whatever the run and the classifier, after a timer event the lowest number that still
      waits has waited for less than the delay. */
  lemma {:induction false} LowestIsYoung(es: seq<Event>, classify: Classifier, maxDelay: nat, i: nat, k: Seq)
    requires Runs(Fresh, es, classify, maxDelay) && i < |es| && es[i].Timer? && k in es[i].b.packets
    requires forall j :: j in es[i].b.packets ==> k <= j
    requires var d := es[i].now - es[i].b.packets[k].localMs; -0x1_0000_0000_0000_0000 < d < 0x1_0000_0000_0000_0000
    ensures var d := es[i].now - es[i].b.packets[k].localMs;
            (if d < 0 then d + 0x1_0000_0000_0000_0000 else d) < maxDelay
  {
    RunsAt(Fresh, es, classify, maxDelay, i);
    LowestHeld(Exec(Fresh, es[..i]).b, es[i].now, maxDelay, es[i].b, es[i].out, k);
    OverdueIs(es[i].b.packets[k], es[i].now, maxDelay);
  }

  // ----- in order

  /** Within one cycle, with all numbers different: the expected number is normal, greater
      ones are little jumps, and nothing makes the buffer flush. */
  ghost predicate Proper(r: Run, e: Event, classify: Classifier) {
    e.Push? ==>
      && e.p.sn < SEQ_MOD - 1 && (forall q :: q in r.seen ==> q.sn != e.p.sn)
      && (r.b.started ==>
            var v := classify(r.b.expected, e.p.sn);
            && (v == Normal ==> e.p.sn == r.b.expected) && (v == LittleJump ==> e.p.sn > r.b.expected)
            && v != Reverse && v != JumpLarge)
  }

  ghost predicate Rising(s: seq<Pkt>) {
    forall i, j :: 0 <= i < j < |s| ==> s[i].sn < s[j].sn
  }

  /** Everything delivered is below the expected number, everything waiting is not. */
  ghost predicate InStep(r: Run) {
    && Sound(r) && Rising(r.delivered)
    && (forall p :: p in r.seen ==> p.sn < SEQ_MOD - 1)
    && (forall p :: p in r.delivered ==> p.sn < r.b.expected)
    && (forall k :: k in r.b.packets ==> r.b.expected <= k)
    && (!r.b.started ==> r.delivered == [] && r.b.packets == map[])
  }

  /** Rising numbers from the expected one on may be delivered; the next number expected is
      behind the last of them. */
  lemma {:induction false} Extends(r: Run, b: Buffer, out: seq<Pkt>, seen: set<Pkt>)
    requires InStep(r) && Sound(Run(b, seen, r.delivered + out)) && Rising(out)
    requires forall p :: p in out ==> p.sn < b.expected && (r.b.started ==> r.b.expected <= p.sn)
    requires forall p :: p in seen ==> p.sn < SEQ_MOD - 1
    requires (r.b.started ==> b.expected >= r.b.expected) && (b.started || r == Run(b, seen, r.delivered + out))
    requires forall k :: k in b.packets ==> b.expected <= k
    ensures InStep(Run(b, seen, r.delivered + out))
  {
    var all := r.delivered + out;
    forall i, j | 0 <= i < j < |all|
      ensures all[i].sn < all[j].sn
    {
      if i < |r.delivered| <= j {
        assert all[i] in r.delivered && all[j] in out;
      }
    }
  }

  /** Draining within the cycle does not wrap. */
  lemma {:induction false} DrainsWithin(m: Packets, first: int)
    requires Keyed(m) && 0 <= first < SEQ_MOD && forall k :: k in m ==> k < SEQ_MOD - 1
    ensures var (out, rest, next) := Drain(m, first);
            && first + |out| < SEQ_MOD && next == first + |out|
            && (forall i :: 0 <= i < |out| ==> out[i].sn == first + i)
    decreases |m|
  {
    if first in m {
      SmallerWithout(m, first);
      ModArith.Small(first + 1, SEQ_MOD);
      DrainsWithin(m - {first}, first + 1);
    }
  }

  lemma {:induction false} DrainsRising(m: Packets, first: int)
    requires Keyed(m) && 0 <= first < SEQ_MOD && forall k :: k in m ==> k < SEQ_MOD - 1
    ensures var (out, rest, next) := Drain(m, first);
            && first + |out| < SEQ_MOD && next == first + |out|
            && (forall i :: 0 <= i < |out| ==> out[i].sn == first + i)
            && (forall k :: k in rest && k >= first ==> k > next)
  {
    var (out, rest, next) := Drain(m, first);
    DrainsWithin(m, first);
    DrainedMembers(m, first);
    forall k | first <= k < next
      ensures k !in rest
    {
      assert out[k - first] in out;
    }
  }

  lemma {:induction false} NormalInStep(r: Run, p: Pkt, b: Buffer, out: seq<Pkt>, classify: Classifier)
    requires InStep(r) && Possible(r, Push(p, b, out), classify, 0) && Proper(r, Push(p, b, out), classify)
    requires r.b.started && classify(r.b.expected, p.sn) == Normal
    ensures Rising(out) && b.started && b.expected >= r.b.expected
    ensures forall q :: q in out ==> r.b.expected <= q.sn < b.expected
    ensures forall k :: k in b.packets ==> b.expected <= k
  {
    var next: int := p.sn + 1;
    ModArith.Small(next, SEQ_MOD);
    forall k | k in r.b.packets
      ensures k < SEQ_MOD - 1 && k != p.sn
    {
      assert r.b.packets[k] in r.seen;
    }
    DrainsRising(r.b.packets, next);
    var more := Drain(r.b.packets, next).0;
    assert out == [p] + more;
    forall q | q in out
      ensures r.b.expected <= q.sn < b.expected
    {
      var i :| 0 <= i < |out| && out[i] == q;
      assert i > 0 ==> more[i - 1] == q;
    }
  }

  lemma {:induction false} PushInStep(r: Run, p: Pkt, b: Buffer, out: seq<Pkt>, classify: Classifier)
    requires InStep(r) && Possible(r, Push(p, b, out), classify, 0) && Proper(r, Push(p, b, out), classify)
    ensures InStep(Next(r, Push(p, b, out)))
  {
    PushSound(r, p, b, out, classify);
    if r.b.started && classify(r.b.expected, p.sn) == Normal {
      NormalInStep(r, p, b, out, classify);
    } else if !r.b.started {
      ModArith.Small(p.sn + 1, SEQ_MOD);
    }
    Extends(r, b, out, r.seen + {p});
  }

  lemma {:induction false} OutBelow(out: seq<Pkt>)
    requires Rising(out) && out != []
    ensures forall q :: q in out ==> q.sn <= out[|out| - 1].sn
  {
    forall q | q in out
      ensures q.sn <= out[|out| - 1].sn
    {
      var i :| 0 <= i < |out| && out[i] == q;
    }
  }

  lemma {:induction false} TimerOut(r: Run, now: int, b: Buffer, out: seq<Pkt>, maxDelay: nat)
    requires InStep(r) && Expires(r.b, now, maxDelay, b, out) && out != []
    ensures b.expected == out[|out| - 1].sn + 1 && b.expected >= r.b.expected
    ensures forall p :: p in out ==> r.b.expected <= p.sn < b.expected
    ensures forall k :: k in b.packets ==> b.expected <= k
  {
    var last := out[|out| - 1];
    assert last in out;
    assert last.sn in r.b.packets && r.b.packets[last.sn] in r.seen;
    ModArith.Small(last.sn + 1, SEQ_MOD);
    OutBelow(out);
  }

  lemma {:induction false} TimerInStep(r: Run, now: int, b: Buffer, out: seq<Pkt>, maxDelay: nat)
    requires InStep(r) && Expires(r.b, now, maxDelay, b, out)
    ensures InStep(Next(r, Timer(now, b, out)))
  {
    TimerSound(r, now, b, out, maxDelay);
    if out != [] {
      TimerOut(r, now, b, out, maxDelay);
    } else {
      assert Numbers(out) == {};
    }
    Extends(r, b, out, r.seen);
  }

  ghost predicate ProperRuns(r: Run, es: seq<Event>, classify: Classifier)
    decreases |es|
  {
    es != [] ==> Proper(r, es[0], classify) && ProperRuns(Next(r, es[0]), es[1..], classify)
  }

  lemma {:induction false} RunInStep(r: Run, es: seq<Event>, classify: Classifier, maxDelay: nat)
    requires InStep(r) && Runs(r, es, classify, maxDelay) && ProperRuns(r, es, classify)
    ensures InStep(Exec(r, es))
    decreases |es|
  {
    if es != [] {
      match es[0] {
        case Push(p, b, out) => PushInStep(r, p, b, out, classify);
        case Timer(now, b, out) => TimerInStep(r, now, b, out, maxDelay);
      }
      RunInStep(Next(r, es[0]), es[1..], classify, maxDelay);
    }
  }

  /** Over any such run, releases by the timer included, delivered numbers strictly rise. */
  lemma {:induction false} DeliveredInOrder(es: seq<Event>, classify: Classifier, maxDelay: nat)
    requires Runs(Fresh, es, classify, maxDelay) && ProperRuns(Fresh, es, classify)
    ensures Rising(Exec(Fresh, es).delivered)
  {
    RunInStep(Fresh, es, classify, maxDelay);
  }

  // ----- the comparison in use is not proper

  /** With the comparison the source uses, a packet is ignored exactly when it has the
      number that is expected. */
  lemma {:induction false} ExpectedIsIgnored(b: Buffer, p: Pkt, b': Buffer, out: seq<Pkt>)
    requires b.started && Pushes(b, p, CompareSeq, b', out) && Keyed(b.packets)
    requires p.sn in b.packets ==> b.packets[p.sn] != p
    ensures p !in out && (p.sn in b'.packets ==> b'.packets[p.sn] != p) <==> p.sn == b.expected
  {
    var v := CompareSeq(b.expected, p.sn);
    if v == Normal {
      assert out[0] == p;
    } else if v == LittleJump {
      assert b'.packets[p.sn] == p;
    } else if v != Repeat {
      assert out[|out| - 1] == p;
    }
  }

  /** Deliveries rise, and whatever waits is above them. */
  ghost predicate Orderly(r: Run) {
    Rising(r.delivered) && forall p, k :: p in r.delivered && k in r.b.packets ==> p.sn < k
  }

  /** In order so far: the last number delivered is the expected one or the one before it,
      and what waits is at most 3000 ahead. */
  ghost predicate Steady(r: Run) {
    && Sound(r) && Orderly(r)
    && (if r.b.started then
          && r.delivered != [] && r.delivered[|r.delivered| - 1].sn >= r.b.expected - 1
          && (forall p :: p in r.delivered ==> p.sn <= r.b.expected)
          && (forall k :: k in r.b.packets ==> r.b.expected <= k <= r.b.expected + 3000)
        else r.delivered == [] && r.b.packets == map[])
  }

  /** A new number, below 65535. */
  ghost predicate NewNumber(r: Run, e: Event) {
    e.Push? ==> e.p.sn < SEQ_MOD - 1 && forall q :: q in r.seen ==> q.sn != e.p.sn
  }

  /** A packet that is not older than expected, nor the one behind the expected number while
      that number, reached by a release, still waits. */
  predicate Calm(r: Run, e: Event) {
    e.Push? && r.b.started ==>
      e.p.sn >= r.b.expected && !(e.p.sn == r.b.expected + 1 && r.b.expected in r.b.packets)
  }

  /** More rising numbers behind those delivered. */
  lemma {:induction false} RisingOn(s: seq<Pkt>, more: seq<Pkt>)
    requires Rising(s) && Rising(more) && forall p, q :: p in s && q in more ==> p.sn < q.sn
    ensures Rising(s + more)
  {
    var all := s + more;
    forall i, j | 0 <= i < j < |all|
      ensures all[i].sn < all[j].sn
    {
      if i < |s| <= j {
        assert all[i] in s && all[j] in more;
      }
    }
  }

  lemma {:induction false} EndsIn(s: seq<Pkt>, more: seq<Pkt>)
    requires more != []
    ensures s + more != [] && (s + more)[|s + more| - 1] == more[|more| - 1]
    ensures forall q :: q in s + more <==> q in s || q in more
  {
  }

  /** Rising numbers from the expected one on are delivered, and all that waits is above the
      new expected number. */
  lemma {:induction false} Advances(r: Run, b: Buffer, out: seq<Pkt>, seen: set<Pkt>)
    requires Steady(r) && Sound(Run(b, seen, r.delivered + out)) && b.started && out != [] && Rising(out)
    requires forall p, q :: p in r.delivered && q in out ==> p.sn < q.sn
    requires r.b.started ==> b.expected >= r.b.expected
    requires out[|out| - 1].sn >= b.expected - 1 && forall q :: q in out ==> q.sn <= b.expected
    requires forall k :: k in b.packets ==> b.expected <= k <= b.expected + 3000
    requires forall q, k :: q in out && k in b.packets ==> q.sn < k
    requires forall k :: k in b.packets ==> k in r.b.packets
    ensures Steady(Run(b, seen, r.delivered + out))
  {
    RisingOn(r.delivered, out);
    EndsIn(r.delivered, out);
  }

  lemma {:induction false} FlushRises(b: Buffer, p: Pkt, b': Buffer, out: seq<Pkt>)
    requires Flushes(b, p, b', out) && forall k :: k in b.packets ==> k < p.sn
    ensures Rising(out) && out[|out| - 1] == p
    ensures forall q :: q in out ==> q.sn <= p.sn && (q == p || q.sn in b.packets)
  {
    var waiting := out[..|out| - 1];
    assert out == waiting + [p];
    SnocMembers(waiting, p);
    RisingOn(waiting, [p]);
  }

  lemma {:induction false} CalmFlush(r: Run, p: Pkt, b: Buffer, out: seq<Pkt>)
    requires Steady(r) && r.b.started && Flushes(r.b, p, b, out) && p.sn < SEQ_MOD - 1 && p !in r.seen
    requires p.sn > r.b.expected + 3000 && Sound(Run(b, r.seen + {p}, r.delivered + out))
    ensures Steady(Run(b, r.seen + {p}, r.delivered + out))
  {
    ModArith.Small(p.sn + 1, SEQ_MOD);
    FlushRises(r.b, p, b, out);
    Advances(r, b, out, r.seen + {p});
  }

  lemma {:induction false} BehindExpected(r: Run, p: Pkt, b: Buffer, out: seq<Pkt>)
    requires Steady(r) && r.b.started && Pushes(r.b, p, CompareSeq, b, out) && NewNumber(r, Push(p, b, out))
    requires p.sn == r.b.expected as int + 1
    ensures out == [p] && b == Buffer(true, p.sn, r.b.packets) && p.sn !in r.b.packets
  {
    ModArith.Small(p.sn, SEQ_MOD);
    forall k | k in r.b.packets
      ensures k != p.sn
    {
      assert r.b.packets[k] in r.seen;
    }
    assert [p] + [] == [p];
  }

  lemma {:induction false} CalmNext(r: Run, p: Pkt, b: Buffer, out: seq<Pkt>)
    requires Steady(r) && r.b.started && Pushes(r.b, p, CompareSeq, b, out) && NewNumber(r, Push(p, b, out))
    requires p.sn == r.b.expected as int + 1 && r.b.expected !in r.b.packets
    requires Sound(Run(b, r.seen + {p}, r.delivered + out))
    ensures Steady(Run(b, r.seen + {p}, r.delivered + out))
  {
    BehindExpected(r, p, b, out);
    forall k | k in b.packets
      ensures p.sn < k <= p.sn + 3000
    {
      assert k != r.b.expected && k != p.sn;
    }
    Advances(r, b, out, r.seen + {p});
  }

  lemma {:induction false} CalmFirst(r: Run, p: Pkt, b: Buffer, out: seq<Pkt>)
    requires Steady(r) && !r.b.started && Pushes(r.b, p, CompareSeq, b, out) && p.sn < SEQ_MOD - 1
    requires Sound(Run(b, r.seen + {p}, r.delivered + out))
    ensures Steady(Run(b, r.seen + {p}, r.delivered + out))
  {
    ModArith.Small(p.sn + 1, SEQ_MOD);
    Advances(r, b, out, r.seen + {p});
  }

  lemma {:induction false} CalmWait(r: Run, p: Pkt, b: Buffer, out: seq<Pkt>)
    requires Steady(r) && r.b.started && Pushes(r.b, p, CompareSeq, b, out)
    requires r.b.expected <= p.sn <= r.b.expected + 3000 && p.sn != r.b.expected + 1
    requires NewNumber(r, Push(p, b, out)) && Sound(Run(b, r.seen + {p}, r.delivered + out))
    ensures Steady(Run(b, r.seen + {p}, r.delivered + out))
  {
    assert out == [] && r.delivered + out == r.delivered;
    forall q | q in r.delivered
      ensures q.sn != p.sn
    {
      assert q in r.seen;
    }
  }

  /** A calm push keeps the order. */
  lemma {:induction false} CalmKeeps(r: Run, p: Pkt, b: Buffer, out: seq<Pkt>)
    requires Steady(r) && Possible(r, Push(p, b, out), CompareSeq, 0)
    requires NewNumber(r, Push(p, b, out)) && Calm(r, Push(p, b, out))
    ensures Steady(Next(r, Push(p, b, out)))
  {
    PushSound(r, p, b, out, CompareSeq);
    if !r.b.started {
      CalmFirst(r, p, b, out);
    } else if p.sn == r.b.expected as int + 1 {
      CalmNext(r, p, b, out);
    } else if p.sn > r.b.expected as int + 3000 {
      CalmFlush(r, p, b, out);
    } else {
      CalmWait(r, p, b, out);
    }
  }

  /** A packet that is older by up to 3000 is delivered nevertheless. */
  lemma {:induction false} OlderIsDelivered(b: Buffer, p: Pkt, b': Buffer, out: seq<Pkt>)
    requires b.started && Pushes(b, p, CompareSeq, b', out) && p.sn < b.expected
    ensures p in out
  {
    if b.expected - p.sn <= 3000 {
      assert out[0] == p;
    } else {
      assert out[|out| - 1] == p;
    }
  }

  lemma {:induction false} OlderBreaks(r: Run, p: Pkt, b: Buffer, out: seq<Pkt>)
    requires Steady(r) && r.b.started && Pushes(r.b, p, CompareSeq, b, out)
    requires NewNumber(r, Push(p, b, out)) && p.sn < r.b.expected
    ensures !Rising(r.delivered + out)
  {
    OlderIsDelivered(r.b, p, b, out);
    var n, all := |r.delivered|, r.delivered + out;
    var i :| 0 <= i < |out| && out[i] == p;
    assert r.delivered[n - 1] in r.delivered;
    assert all[n - 1] == r.delivered[n - 1] && all[n + i] == p;
  }

  /** A push keeps the order exactly when it is calm. */
  lemma {:induction false} PushKeepsOrderIff(r: Run, p: Pkt, b: Buffer, out: seq<Pkt>)
    requires Steady(r) && Possible(r, Push(p, b, out), CompareSeq, 0) && NewNumber(r, Push(p, b, out))
    ensures Orderly(Next(r, Push(p, b, out))) <==> Calm(r, Push(p, b, out))
  {
    var e := Push(p, b, out);
    if Calm(r, e) {
      CalmKeeps(r, p, b, out);
    } else if p.sn < r.b.expected {
      OlderBreaks(r, p, b, out);
    } else {
      BehindExpected(r, p, b, out);
      assert p in r.delivered + out && r.b.expected in b.packets;
    }
  }

  lemma {:induction false} Released(r: Run, now: int, b: Buffer, out: seq<Pkt>, maxDelay: nat)
    requires Steady(r) && Expires(r.b, now, maxDelay, b, out) && out != []
    requires forall p :: p in r.seen ==> p.sn < SEQ_MOD - 1
    ensures r.b.started && b.started && b.expected == out[|out| - 1].sn + 1 && b.expected >= r.b.expected
    ensures forall q :: q in out ==> q.sn in r.b.packets && q.sn < b.expected
    ensures forall k :: k in b.packets ==> k in r.b.packets && b.expected <= k <= b.expected + 3000
  {
    var last := out[|out| - 1];
    assert last in out && last.sn in r.b.packets && r.b.packets[last.sn] in r.seen;
    ModArith.Small(last.sn + 1, SEQ_MOD);
    OutBelow(out);
  }

  /** The timer always keeps it. */
  lemma {:induction false} TimerKeepsOrder(r: Run, now: int, b: Buffer, out: seq<Pkt>, maxDelay: nat)
    requires Steady(r) && Expires(r.b, now, maxDelay, b, out)
    requires forall p :: p in r.seen ==> p.sn < SEQ_MOD - 1
    ensures Steady(Next(r, Timer(now, b, out)))
  {
    TimerSound(r, now, b, out, maxDelay);
    if out == [] {
      assert Numbers(out) == {} && b == r.b && r.delivered + out == r.delivered;
    } else {
      Released(r, now, b, out, maxDelay);
      Advances(r, b, out, r.seen);
    }
  }

  lemma {:induction false} FallsOn(s: seq<Pkt>, more: seq<Pkt>)
    requires !Rising(s)
    ensures !Rising(s + more)
  {
    var all := s + more;
    var i, j :| 0 <= i < j < |s| && s[i].sn >= s[j].sn;
    assert all[i] == s[i] && all[j] == s[j];
  }

  lemma {:induction false} FallsTo(s: seq<Pkt>, more: seq<Pkt>, p: Pkt, q: Pkt)
    requires p in s && q in more && p.sn >= q.sn
    ensures !Rising(s + more)
  {
    var all := s + more;
    var i :| 0 <= i < |s| && s[i] == p;
    var j :| 0 <= j < |more| && more[j] == q;
    assert all[i] == p && all[|s| + j] == q;
  }

  /** Once lost, the order stays lost. */
  lemma {:induction false} BrokenStays(r: Run, e: Event, maxDelay: nat)
    requires Sound(r) && Possible(r, e, CompareSeq, maxDelay) && NewNumber(r, e) && !Orderly(r)
    ensures !Orderly(Next(r, e))
  {
    if !Rising(r.delivered) {
      FallsOn(r.delivered, e.out);
    } else {
      var p, k :| p in r.delivered && k in r.b.packets && p.sn >= k;
      NothingVanishes(r, e, CompareSeq, maxDelay, k);
      if k in e.b.packets {
        assert p in r.delivered + e.out;
      } else {
        FallsTo(r.delivered, e.out, p, r.b.packets[k]);
      }
    }
  }

  ghost predicate NewNumbers(r: Run, es: seq<Event>)
    decreases |es|
  {
    es != [] ==> NewNumber(r, es[0]) && NewNumbers(Next(r, es[0]), es[1..])
  }

  ghost predicate AllCalm(r: Run, es: seq<Event>)
    decreases |es|
  {
    es != [] ==> Calm(r, es[0]) && AllCalm(Next(r, es[0]), es[1..])
  }

  lemma {:induction false} BrokenForGood(r: Run, es: seq<Event>, maxDelay: nat)
    requires Sound(r) && Runs(r, es, CompareSeq, maxDelay) && NewNumbers(r, es) && !Orderly(r)
    ensures !Orderly(Exec(r, es))
    decreases |es|
  {
    if es != [] {
      BrokenStays(r, es[0], maxDelay);
      StepSound(r, es[0], CompareSeq, maxDelay);
      BrokenForGood(Next(r, es[0]), es[1..], maxDelay);
    }
  }

  lemma {:induction false} OrderIff(r: Run, es: seq<Event>, maxDelay: nat)
    requires Steady(r) && Runs(r, es, CompareSeq, maxDelay) && NewNumbers(r, es)
    requires forall p :: p in r.seen ==> p.sn < SEQ_MOD - 1
    ensures Orderly(Exec(r, es)) <==> AllCalm(r, es)
    decreases |es|
  {
    if es != [] {
      var e := es[0];
      StepSound(r, e, CompareSeq, maxDelay);
      if !Calm(r, e) {
        PushKeepsOrderIff(r, e.p, e.b, e.out);
        BrokenForGood(Next(r, e), es[1..], maxDelay);
      } else {
        match e {
          case Push(p, b, out) => CalmKeeps(r, p, b, out);
          case Timer(now, b, out) => TimerKeepsOrder(r, now, b, out, maxDelay);
        }
        OrderIff(Next(r, e), es[1..], maxDelay);
      }
    }
  }

  /** With the comparison in use, over any run with new numbers below 65535 and releases in
      between, what has been delivered rises, below what waits, exactly when every push was
      calm: no packet was older than expected, and none came just behind an expected number
      that was itself still waiting. */
  lemma {:induction false} InOrderIff(es: seq<Event>, maxDelay: nat)
    requires Runs(Fresh, es, CompareSeq, maxDelay) && NewNumbers(Fresh, es)
    ensures Orderly(Exec(Fresh, es)) <==> AllCalm(Fresh, es)
  {
    OrderIff(Fresh, es, maxDelay);
  }

  ghost predicate AllPushed(bs: seq<Buffer>, pkts: seq<Pkt>, outs: seq<seq<Pkt>>) {
    && |bs| == |pkts| + 1 && |outs| == |pkts|
    && forall i :: 0 <= i < |pkts| ==> Pushes(bs[i], pkts[i], CompareSeq, bs[i + 1], outs[i])
  }

  lemma LaterNext(sn: Seq, i: nat)
    ensures Later(sn, i + 1) == After(Later(sn, i))
  {
    ModArith.Sum(sn + i, 1, SEQ_MOD);
  }

  lemma AfterIs(sn: Seq)
    ensures After(sn) as int == if sn == SEQ_MOD - 1 then 0 else sn as int + 1
  {
    if sn < SEQ_MOD - 1 {
      ModArith.Small(sn + 1, SEQ_MOD);
    }
  }

  lemma {:induction false} SomeMember(s: seq<Pkt>)
    ensures s == [] || exists p :: p in s
  {
    if s != [] {
      assert s[0] in s;
    }
  }

  lemma {:induction false} FlushesNothing(b: Buffer, p: Pkt, b': Buffer, out: seq<Pkt>)
    requires b.packets == map[] && Flushes(b, p, b', out)
    ensures out == [p]
  {
    var waiting := out[..|out| - 1];
    SomeMember(waiting);
    assert out == waiting + [p];
  }

  /** What becomes of the packet after `last`, if nothing waits. */
  lemma {:induction false} FollowOn(b: Buffer, p: Pkt, b': Buffer, out: seq<Pkt>, last: Seq)
    requires Pushes(b, p, CompareSeq, b', out) && b.started && b.packets == map[]
    requires b.expected in {last, After(last)} && p.sn == After(last)
    ensures out == if b.expected == p.sn then [] else [p]
    ensures b' == Buffer(true, if b.expected != p.sn && p.sn == 0 then After(0) else p.sn, map[])
  {
    AfterIs(last);
    AfterIs(p.sn);
    if b.expected != p.sn && p.sn == 0 {
      FlushesNothing(b, p, b', out);
    }
  }

  lemma {:induction false} FirstGoesOut(p: Pkt, b': Buffer, out: seq<Pkt>)
    requires Pushes(Buffer(false, 0, map[]), p, CompareSeq, b', out)
    ensures out == [p] && b' == Buffer(true, After(p.sn), map[])
  {
  }

  /** What is expected after the `n`th packet of a perfect order. */
  function ExpectedAfter(n: nat, sn: Seq): Seq {
    if n == 0 || (n >= 2 && sn == 0) then After(sn) else sn
  }

  lemma ExpectedNext(n: nat, last: Seq)
    requires n >= 1
    ensures var e, sn := ExpectedAfter(n - 1, last), After(last);
            && e in {last, sn} && (e == sn <==> n == 1 || (n >= 3 && sn == 1))
            && ExpectedAfter(n, sn) == if e != sn && sn == 0 then After(0) else sn
  {
    AfterIs(last);
    AfterIs(After(last));
  }

  lemma {:induction false} PerfectStep(b: Buffer, p: Pkt, b': Buffer, out: seq<Pkt>, n: nat, last: Seq)
    requires n >= 1 && Pushes(b, p, CompareSeq, b', out)
    requires b == Buffer(true, ExpectedAfter(n - 1, last), map[]) && p.sn == After(last)
    ensures out == if n == 1 || (n >= 3 && p.sn == 1) then [] else [p]
    ensures b' == Buffer(true, ExpectedAfter(n, p.sn), map[])
  {
    ExpectedNext(n, last);
    FollowOn(b, p, b', out, last);
  }

  /** Of packets that come in perfect order, any number of wraps included, the second is
      lost, and so is number 1 after every wrap that comes later. */
  lemma {:induction false} PerfectOrderLoses(bs: seq<Buffer>, pkts: seq<Pkt>, outs: seq<seq<Pkt>>, n: nat)
    requires AllPushed(bs, pkts, outs) && n < |pkts| && bs[0] == Buffer(false, 0, map[])
    requires forall i :: 0 <= i < |pkts| ==> pkts[i].sn == Later(pkts[0].sn, i)
    ensures outs[n] == if n == 1 || (n >= 3 && pkts[n].sn == 1) then [] else [pkts[n]]
    ensures bs[n + 1] == Buffer(true, ExpectedAfter(n, pkts[n].sn), map[])
  {
    if n == 0 {
      FirstGoesOut(pkts[0], bs[1], outs[0]);
    } else {
      PerfectOrderLoses(bs, pkts, outs, n - 1);
      LaterNext(pkts[0].sn, n - 1);
      PerfectStep(bs[n], pkts[n], bs[n + 1], outs[n], n, pkts[n - 1].sn);
    }
  }
}
