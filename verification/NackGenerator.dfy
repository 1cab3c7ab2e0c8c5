/** The set of packets believed lost, and the schedule of requests for them. */
module NackGenerator {
  import opened RtpSession

  const LIST_MAX := 5000
  const RETRY_MAX := 80

  /** How often a lost packet has been requested, and when last. */
  datatype Info = Info(sentMs: int, retry: nat)

  type Losses = map<Seq, Info>

  datatype NackState = Nacks(init: bool, last: Seq, losses: Losses)

  /** Half-range comparison of sequence numbers. */
  predicate SeqLowerThan(a: Seq, b: Seq) {
    || (a > b && a - b > 65535 / 2)
    || (a < b && b - a <= 65535 / 2)
  }

  /** The numbers from `a` up to but not including `b`, as a counting loop sees them. */
  function Between(a: int, b: int): (r: set<Seq>)
    requires 0 <= a && b <= SEQ_MOD
    ensures forall k :: k in r <==> a <= k < b
    decreases b - a
  {
    if a >= b then {} else {a} + Between(a + 1, b)
  }

  function WithGap(m: Losses, gap: set<Seq>): Losses {
    map k | k in m.Keys + gap :: if k in m then m[k] else Info(0, 0)
  }

  /** The state after a packet. */
  function Seen(st: NackState, sn: Seq): NackState {
    if !st.init then st.(init := true, last := sn)
    else if sn == st.last then st
    else if SeqLowerThan(sn, st.last) then st.(losses := st.losses - {sn})
    else if st.last + 1 == sn then st.(last := sn)
    else st.(last := sn, losses := WithGap(st.losses, Between((st.last + 1) % SEQ_MOD, sn)))
  }

  /** A loss is due for a request at `now` if asked for at most 80 times and not within
      the last round trip. */
  predicate IsDue(i: Info, now: int, rtt: int) {
    i.retry <= RETRY_MAX && now - i.sentMs >= rtt
  }

  function Due(m: Losses, now: int, rtt: int): set<Seq> {
    set k | k in m && IsDue(m[k], now, rtt)
  }

  /** The losses after the requests at `now`: those asked for 81 times are given up. */
  function Asked(m: Losses, now: int, rtt: int): Losses {
    map k | k in m && m[k].retry <= RETRY_MAX ::
      if IsDue(m[k], now, rtt) then Info(now, m[k].retry + 1) else m[k]
  }

  /** `m'` keeps the 5000 largest keys of `m`. */
  ghost predicate Trimmed(m: Losses, m': Losses) {
    && m'.Keys <= m.Keys && (forall k :: k in m' ==> m'[k] == m[k])
    && |m'| <= LIST_MAX && (|m| <= LIST_MAX ==> m' == m) && (|m| > LIST_MAX ==> |m'| == LIST_MAX)
    && (forall k, j :: k in m' && j in m && j !in m' ==> j < k)
  }

  ghost predicate Ascending(s: seq<Seq>) {
    forall i, j :: 0 <= i < j < |s| ==> s[i] < s[j]
  }

  predicate IsMin(s: set<Seq>, k: Seq) {
    k in s && forall j :: j in s ==> k <= j
  }

  lemma {:induction false} HasMin(s: set<Seq>)
    requires s != {}
    ensures exists k :: IsMin(s, k)
  {
    var k :| k in s;
    if s == {k} {
      assert IsMin(s, k);
    } else {
      HasMin(s - {k});
      var m :| IsMin(s - {k}, m);
      var least := if m < k then m else k;
      forall j | j in s
        ensures least <= j
      {
        assert j == k || j in s - {k};
      }
      assert IsMin(s, least);
    }
  }

  class Generator {
    var init: bool
    var last: Seq
    var losses: Losses
    var rtt: int

    function View(): NackState
      reads this
    {
      Nacks(init, last, losses)
    }

    constructor ()
      ensures View() == Nacks(false, 0, map[]) && rtt == 15
    {
      init, last, losses, rtt := false, 0, map[], 15;
    }

    method UpdateRtt(rtt: int)
      modifies this`rtt
      ensures this.rtt == rtt
    {
      this.rtt := rtt;
    }

    method IsInNackList(sn: Seq) returns (there: bool)
      ensures there <==> sn in losses
    {
      there := sn in losses;
    }

    /** The counting loop over a gap, with its 16-bit counter. */
    method AddGap(start: int, end: Seq)
      requires 0 <= start < SEQ_MOD
      modifies this`losses
      ensures losses == WithGap(old(losses), Between(start, end))
    {
      var key := start;
      while key < end
        invariant start <= key && (key <= end || key == start)
        invariant forall k :: k in losses <==> k in old(losses) || start <= k < key
        invariant forall k :: k in losses ==> losses[k] == if k in old(losses) then old(losses)[k] else Info(0, 0)
      {
        if key !in losses {
          losses := losses[key := Info(0, 0)];
        }
        key := key + 1;
      }
    }

    method UpdateNackList(sn: Seq)
      modifies this`init, this`last, this`losses
      ensures View() == Seen(old(View()), sn)
    {
      if !init {
        init := true;
        last := sn;
        return;
      }
      if sn == last {
        return;
      }
      if SeqLowerThan(sn, last) {
        losses := losses - {sn};
        return;
      }
      if last + 1 == sn {
        last := sn;
        return;
      }
      var start := (last + 1) % SEQ_MOD;
      last := sn;
      AddGap(start, sn);
    }

    /** Walks the losses in ascending order, requesting what is due and giving up what
        was requested too often. */
    method Request(now: int) returns (lost: seq<Seq>)
      modifies this`losses
      ensures Ascending(lost)
      ensures forall k :: k in lost <==> k in Due(old(losses), now, rtt)
      ensures losses == Asked(old(losses), now, rtt)
    {
      lost := [];
      ghost var was := losses;
      var rest := losses.Keys;
      while rest != {}
        invariant rest <= was.Keys && Ascending(lost)
        invariant forall i, j :: 0 <= i < |lost| && j in rest ==> lost[i] < j
        invariant forall k :: k in lost <==> k in was.Keys - rest && IsDue(was[k], now, rtt)
        invariant forall k :: k in losses <==> k in was && (k in rest || was[k].retry <= RETRY_MAX)
        invariant forall k :: k in losses ==>
                    losses[k] == if k !in rest && IsDue(was[k], now, rtt) then Info(now, was[k].retry + 1) else was[k]
        decreases rest
      {
        HasMin(rest);
        var k :| IsMin(rest, k);
        rest := rest - {k};
        if losses[k].retry > RETRY_MAX {
          losses := losses - {k};
        } else if now - losses[k].sentMs >= rtt {
          losses := losses[k := Info(now, losses[k].retry + 1)];
          assert forall j :: j in lost + [k] <==> j in lost || j == k;
          lost := lost + [k];
        }
      }
      assert losses == Asked(was, now, rtt);
    }

    /** Erases from the low end until at most 5000 losses are left. */
    method Trim()
      modifies this`losses
      ensures Trimmed(old(losses), losses)
    {
      ghost var was := losses;
      while |losses| > LIST_MAX
        invariant losses.Keys <= was.Keys && (forall k :: k in losses ==> losses[k] == was[k])
        invariant forall k, j :: k in losses && j in was && j !in losses ==> j < k
        invariant losses == was || (|was| > LIST_MAX && |losses| >= LIST_MAX)
        decreases |losses|
      {
        assert losses.Keys != {};
        HasMin(losses.Keys);
        var k :| IsMin(losses.Keys, k);
        ghost var before := losses;
        losses := losses - {k};
        assert losses.Keys == before.Keys - {k};
        assert |before.Keys| == |losses.Keys| + 1;
      }
    }

    /** Requests what is due, gives up what was requested too often, and keeps at most
        5000 losses, the oldest by number going first. */
    method OnTimer(now: int) returns (lost: seq<Seq>)
      modifies this`losses
      ensures Ascending(lost)
      ensures forall k :: k in lost <==> k in Due(old(losses), now, rtt)
      ensures Trimmed(Asked(old(losses), now, rtt), losses)
    {
      if losses == map[] {
        return [];
      }
      lost := Request(now);
      Trim();
    }
  }
}
