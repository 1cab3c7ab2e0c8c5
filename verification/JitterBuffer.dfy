/** The buffer that puts packets back in order: packets ahead of the expected number wait,
    at most for a fixed time, for those before them. */
module JitterBuffer {
  import opened RtpSession
  import opened NackGenerator

  /** A packet object, its number and the time it arrived. */
  datatype Pkt = Pkt(id: nat, sn: Seq, localMs: int)

  datatype Verdict = Init | Repeat | Normal | JumpLarge | Reverse | Discord | LittleJump

  /** How a number compares to the expected one. */
  type Classifier = (Seq, Seq) -> Verdict

  /** The comparison the source uses, written for the last number rather than the next. */
  function CompareSeq(last: Seq, current: Seq): Verdict {
    if current == last then Repeat
    else if current == last + 1 then Normal
    else if current < last then (if last - current > 3000 then Reverse else Normal)
    else if current > last + 3000 then JumpLarge
    else LittleJump
  }

  type Packets = map<Seq, Pkt>

  datatype Buffer = Buffer(started: bool, expected: Seq, packets: Packets)

  function After(sn: Seq): Seq {
    Later(sn, 1)
  }

  lemma {:induction false} SmallerWithout(m: Packets, k: Seq)
    requires k in m
    ensures |m - {k}| < |m|
  {
    assert (m - {k}).Keys == m.Keys - {k};
    assert |m.Keys - {k}| < |m.Keys|;
  }

  /** The waiting packets that follow on from `expected`, what still waits, and the next
      number expected. */
  function Drain(m: Packets, expected: Seq): (r: (seq<Pkt>, Packets, Seq))
    ensures r.2 !in r.1 && r.1.Keys <= m.Keys && forall k :: k in r.1 ==> r.1[k] == m[k]
    decreases |m|
  {
    if expected in m then
      SmallerWithout(m, expected);
      var rest := Drain(m - {expected}, After(expected));
      ([m[expected]] + rest.0, rest.1, rest.2)
    else ([], m, expected)
  }

  /** All packets in the order of their numbers. */
  ghost predicate InOrder(m: Packets, out: seq<Pkt>) {
    && (forall i, j :: 0 <= i < j < |out| ==> out[i].sn < out[j].sn)
    && (forall p :: p in out <==> p.sn in m && m[p.sn] == p)
  }

  /** Unsigned: a packet from the future counts as overdue. */
  predicate Overdue(p: Pkt, now: int, maxDelay: nat) {
    (now - p.localMs) % 0x1_0000_0000_0000_0000 >= maxDelay
  }

  function Numbers(out: seq<Pkt>): set<Seq> {
    set i | 0 <= i < |out| :: out[i].sn
  }

  /** `out` are the overdue packets up to the first, by number, that is not. */
  ghost predicate Expired(m: Packets, out: seq<Pkt>, now: int, maxDelay: nat) {
    && (forall i, j :: 0 <= i < j < |out| ==> out[i].sn < out[j].sn)
    && (forall p :: p in out ==> p.sn in m && m[p.sn] == p && Overdue(p, now, maxDelay))
    && (forall p, k :: p in out && k in m && k !in Numbers(out) ==> p.sn < k)
    && (forall k :: IsMin(m.Keys - Numbers(out), k) ==> !Overdue(m[k], now, maxDelay))
  }

  ghost predicate Flushes(b: Buffer, p: Pkt, b': Buffer, out: seq<Pkt>) {
    && b' == Buffer(true, After(p.sn), map[])
    && out != [] && out[|out| - 1] == p && InOrder(b.packets, out[..|out| - 1])
  }

  /** What a push does: the buffer after it and what is delivered. Flushing takes all
      waiting packets in order, then the new one. */
  ghost predicate Pushes(b: Buffer, p: Pkt, classify: Classifier, b': Buffer, out: seq<Pkt>) {
    if !b.started then b' == Buffer(true, After(p.sn), b.packets) && out == [p]
    else
      match classify(b.expected, p.sn)
      case Repeat => b' == b && out == []
      case Discord => b' == b && out == []
      case Init => b' == b && out == []
      case Reverse => Flushes(b, p, b', out)
      case JumpLarge => Flushes(b, p, b', out)
      case Normal =>
        var r := Drain(b.packets, After(b.expected));
        b' == Buffer(true, r.2, r.1) && out == [p] + r.0
      case LittleJump => b' == b.(packets := b.packets[p.sn := p]) && out == []
  }

  /** The number expected after a release. */
  function NextAfter(out: seq<Pkt>, expected: Seq): Seq {
    if out == [] then expected else After(out[|out| - 1].sn)
  }

  ghost predicate Expires(b: Buffer, now: int, maxDelay: nat, b': Buffer, out: seq<Pkt>) {
    && Expired(b.packets, out, now, maxDelay)
    && b' == Buffer(b.started, NextAfter(out, b.expected), b.packets - Numbers(out))
  }

  ghost predicate Keyed(m: Packets) {
    forall k :: k in m ==> m[k].sn == k
  }

  lemma {:induction false} NextAfterOne(out: seq<Pkt>, p: Pkt, expected: Seq)
    ensures NextAfter(out + [p], expected) == After(p.sn)
  {
  }

  method First(m: Packets) returns (k: Seq)
    requires m != map[]
    ensures IsMin(m.Keys, k)
  {
    assert m.Keys != {};
    HasMin(m.Keys);
    k :| IsMin(m.Keys, k);
  }

  /** `out` is what has been taken from `was`, lowest numbers first, leaving `m`. */
  ghost predicate Taken(was: Packets, m: Packets, out: seq<Pkt>) {
    && Keyed(was) && m.Keys <= was.Keys && (forall k :: k in m ==> m[k] == was[k])
    && (forall i, j :: 0 <= i < j < |out| ==> out[i].sn < out[j].sn)
    && (forall p :: p in out <==> p.sn in was && was[p.sn] == p && p.sn !in m)
    && (forall p, k :: p in out && k in m ==> p.sn < k)
  }

  ghost predicate TakenDue(was: Packets, m: Packets, out: seq<Pkt>, now: int, maxDelay: nat) {
    Taken(was, m, out) && forall p :: p in out ==> Overdue(p, now, maxDelay)
  }

  lemma {:induction false} SnocMembers(out: seq<Pkt>, q: Pkt)
    ensures forall p :: p in out + [q] <==> p in out || p == q
  {
  }

  lemma {:induction false} TakeOne(was: Packets, m: Packets, out: seq<Pkt>, k: Seq)
    requires Taken(was, m, out) && IsMin(m.Keys, k)
    ensures Taken(was, m - {k}, out + [m[k]]) && |m - {k}| < |m|
  {
    SmallerWithout(m, k);
    SnocMembers(out, m[k]);
    forall i | 0 <= i < |out|
      ensures out[i].sn < k
    {
      assert out[i] in out;
    }
    forall j | j in m - {k}
      ensures k < j
    {
      assert j in m.Keys;
    }
  }

  lemma {:induction false} TakeOneDue(was: Packets, m: Packets, out: seq<Pkt>, k: Seq, now: int, maxDelay: nat)
    requires TakenDue(was, m, out, now, maxDelay) && IsMin(m.Keys, k) && Overdue(m[k], now, maxDelay)
    ensures TakenDue(was, m - {k}, out + [m[k]], now, maxDelay) && |m - {k}| < |m| && m[k].sn == k
  {
    TakeOne(was, m, out, k);
  }

  lemma {:induction false} TakenAreOut(was: Packets, m: Packets, out: seq<Pkt>)
    requires Taken(was, m, out)
    ensures m == was - Numbers(out) && m.Keys == was.Keys - Numbers(out)
  {
    forall k
      ensures k in m <==> k in was && k !in Numbers(out)
    {
      if k in was && k !in m {
        assert was[k] in out;
      }
      if k in Numbers(out) {
        var i :| 0 <= i < |out| && out[i].sn == k;
        assert out[i] in out;
      }
    }
  }

  lemma {:induction false} TakenExpired(was: Packets, m: Packets, out: seq<Pkt>, k: Seq, now: int, maxDelay: nat)
    requires TakenDue(was, m, out, now, maxDelay)
    requires m == map[] || (IsMin(m.Keys, k) && !Overdue(m[k], now, maxDelay))
    ensures Expired(was, out, now, maxDelay) && m == was - Numbers(out)
  {
    TakenAreOut(was, m, out);
    forall j | IsMin(m.Keys, j)
      ensures !Overdue(m[j], now, maxDelay)
    {
      assert j == k;
    }
  }

  /** The loop that releases overdue packets, lowest number first, up to the first that is
      not overdue. */
  method TakeOverdue(was: Packets, expected: Seq, now: int, maxDelay: nat)
    returns (out: seq<Pkt>, m: Packets, next: Seq)
    requires Keyed(was)
    ensures Expired(was, out, now, maxDelay) && m == was - Numbers(out) && next == NextAfter(out, expected)
  {
    out, m, next := [], was, expected;
    while m != map[]
      invariant TakenDue(was, m, out, now, maxDelay) && next == NextAfter(out, expected)
      decreases |m|
    {
      var k := First(m);
      var p := m[k];
      if !Overdue(p, now, maxDelay) {
        TakenExpired(was, m, out, k, now, maxDelay);
        return;
      }
      TakeOneDue(was, m, out, k, now, maxDelay);
      NextAfterOne(out, p, expected);
      out, m, next := out + [p], m - {k}, After(p.sn);
    }
    TakenExpired(was, m, out, 0, now, maxDelay);
  }

  class FastJitterBuffer {
    const classify: Classifier
    const maxDelay: nat
    var started: bool
    var expected: Seq
    var packets: Packets

    function View(): Buffer
      reads this
    {
      Buffer(started, expected, packets)
    }

    constructor (classify: Classifier, maxDelay: nat)
      ensures this.classify == classify && this.maxDelay == maxDelay && View() == Buffer(false, 0, map[])
    {
      this.classify, this.maxDelay := classify, maxDelay;
      started, expected, packets := false, 0, map[];
    }

    /** The loop that drains the buffer. */
    method TakeFollowing(first: Seq) returns (out: seq<Pkt>)
      modifies this`expected, this`packets
      ensures (out, packets, expected) == Drain(old(packets), first)
    {
      expected := first;
      out := [];
      ghost var all := Drain(packets, first);
      assert [] + all.0 == all.0;
      while expected in packets
        invariant all == var r := Drain(packets, expected); (out + r.0, r.1, r.2)
        decreases |packets|
      {
        SmallerWithout(packets, expected);
        var p := packets[expected];
        assert out + ([p] + Drain(packets - {expected}, After(expected)).0)
            == out + [p] + Drain(packets - {expected}, After(expected)).0;
        out := out + [p];
        packets, expected := packets - {expected}, After(expected);
      }
      assert out + [] == out;
    }

    /** The loop that empties the buffer. */
    method TakeAll() returns (out: seq<Pkt>)
      requires Keyed(packets)
      modifies this`packets
      ensures InOrder(old(packets), out) && packets == map[]
    {
      ghost var was := packets;
      out := [];
      while packets != map[]
        invariant Taken(was, packets, out)
        decreases |packets|
      {
        var k := First(packets);
        TakeOne(was, packets, out, k);
        out, packets := out + [packets[k]], packets - {k};
      }
    }

    method PushRtpPacket(p: Pkt) returns (out: seq<Pkt>)
      requires Keyed(packets)
      modifies this`started, this`expected, this`packets
      ensures Pushes(old(View()), p, classify, View(), out) && Keyed(packets)
    {
      if !started {
        started, expected := true, After(p.sn);
        return [p];
      }
      var verdict := classify(expected, p.sn);
      if verdict == Repeat {
        return [];
      } else if verdict == Reverse || verdict == JumpLarge {
        var waiting := TakeAll();
        expected := After(p.sn);
        return waiting + [p];
      } else if verdict == Discord {
        return [];
      } else if verdict == Normal {
        var more := TakeFollowing(After(expected));
        return [p] + more;
      } else if verdict == LittleJump {
        packets := packets[p.sn := p];
      }
      out := [];
    }

    method OnTimer(now: int) returns (out: seq<Pkt>)
      requires Keyed(packets)
      modifies this`expected, this`packets
      ensures Expires(old(View()), now, maxDelay, View(), out) && Keyed(packets)
    {
      out, packets, expected := TakeOverdue(packets, expected, now, maxDelay);
    }
  }
}
