/** How long a sent packet can be retransmitted: the cache is addressed modulo 1000, but
    sequence numbers wrap at 65536, which is not a multiple of 1000. */
module RtxCache {
  import opened Common
  import opened RtpSession
  import opened RtpPacket
  import opened RtpSendSession
  import ModArith

  /** Packets numbered consecutively around the 16-bit circle. */
  ghost predicate Consecutive(pkts: seq<Packet>) {
    forall k :: 0 <= k < |pkts| ==> pkts[k].sn == Later(pkts[0].sn, k)
  }

  /** The sends of a session that retransmits, and whether all were accepted. */
  ghost function SendAll(s: Sender, ps: Params, pkts: seq<Packet>): (r: (Sender, bool))
    requires |s.cache| == CACHE_SIZE
    ensures |r.0.cache| == CACHE_SIZE
    decreases |pkts|
  {
    if pkts == [] then (s, true)
    else
      var (s1, ok1) := SendAll(s, ps, pkts[..|pkts| - 1]);
      var (s2, ok2) := Send(s1, ps, pkts[|pkts| - 1]);
      (s2, ok1 && ok2)
  }

  /** Consecutive packets are all accepted, so all are cached in turn. */
  lemma {:induction false} ConsecutiveAccepted(s: Sender, ps: Params, pkts: seq<Packet>)
    requires |s.cache| == CACHE_SIZE && s.first && pkts != [] && Consecutive(pkts)
    ensures var (s', ok) := SendAll(s, ps, pkts);
            ok && !s'.first && Tracks(s'.rtp, pkts[0].sn + |pkts| - 1)
    decreases |pkts|
  {
    var last := |pkts| - 1;
    if last > 0 {
      var top := pkts[0].sn + last - 1;
      assert Consecutive(pkts[..last]);
      ConsecutiveAccepted(s, ps, pkts[..last]);
      UpdateTracks(SendAll(s, ps, pkts[..last]).0.rtp, top, top + 1);
    } else {
      assert pkts[..0] == [];
    }
  }

  /** After accepted sends each slot holds the last packet sent into it. */
  lemma {:induction false} SlotHoldsLast(s: Sender, ps: Params, pkts: seq<Packet>, k: nat)
    requires |s.cache| == CACHE_SIZE && Retransmits(ps) && SendAll(s, ps, pkts).1 && k < |pkts|
    requires forall m :: k < m < |pkts| ==> Slot(pkts[m].sn) != Slot(pkts[k].sn)
    ensures SendAll(s, ps, pkts).0.cache[Slot(pkts[k].sn)] == Some(pkts[k])
    decreases |pkts|
  {
    var last := |pkts| - 1;
    if k < last {
      assert pkts[..last][k] == pkts[k];
      assert Slot(pkts[last].sn) != Slot(pkts[k].sn);
      SlotHoldsLast(s, ps, pkts[..last], k);
    }
  }

  /** Later sends into the same slot displace a packet. */
  lemma {:induction false} SlotLoses(s: Sender, ps: Params, pkts: seq<Packet>, k: nat, m: nat)
    requires |s.cache| == CACHE_SIZE && Retransmits(ps) && SendAll(s, ps, pkts).1 && k < m < |pkts|
    requires Slot(pkts[m].sn) == Slot(pkts[k].sn)
    requires forall i :: k < i < |pkts| ==> pkts[i].sn != pkts[k].sn
    ensures Lookup(SendAll(s, ps, pkts).0.cache, pkts[k].sn) == None
    decreases |pkts|
  {
    var last := |pkts| - 1;
    if m < last {
      assert pkts[..last][k] == pkts[k] && pkts[..last][m] == pkts[m];
      SlotLoses(s, ps, pkts[..last], k, m);
    }
  }

  /** For how many further consecutive sends a packet stays in the cache. */
  function Lifetime(sn: Seq): nat {
    var w := SEQ_MOD - sn;
    if w <= 536 then 536 else if w <= 1000 then 1536 else 1000
  }

  lemma SameRemainder(x: int, e: int)
    ensures (x + e) % 1000 == x % 1000 <==> e % 1000 == 0
  {
    var q, r := x / 1000, x % 1000;
    assert x == q * 1000 + r;
    ModArith.Shift(r + e, q, 1000);
  }

  /** Which later numbers share the slot of `sn`: every thousandth before the wrap, and
      from the wrap on those that are 536 past a thousand. */
  lemma SharesSlot(sn: Seq, d: nat)
    requires 0 < d < SEQ_MOD
    ensures Slot(Later(sn, d)) == Slot(sn)
            <==> (if d < SEQ_MOD - sn then d % CACHE_SIZE == 0 else d % CACHE_SIZE == 536)
  {
    var n: int := sn;
    ModArith.Small(n + d - SEQ_MOD, SEQ_MOD);
    ModArith.Shift(n + d, -1, SEQ_MOD);
    ModArith.Small(n + d, SEQ_MOD);
    SameRemainder(n, if d < SEQ_MOD - sn then d else d - SEQ_MOD);
  }

  lemma FirstShared(sn: Seq)
    ensures Slot(Later(sn, Lifetime(sn))) == Slot(sn)
    ensures forall d :: 0 < d < Lifetime(sn) ==> Slot(Later(sn, d)) != Slot(sn)
  {
    SharesSlot(sn, Lifetime(sn));
    forall d | 0 < d < Lifetime(sn)
      ensures Slot(Later(sn, d)) != Slot(sn)
    {
      SharesSlot(sn, d);
    }
  }

  lemma LaterLater(sn: Seq, k: nat, d: nat)
    ensures Later(Later(sn, k), d) == Later(sn, k + d)
  {
    ModArith.Sum(sn + k, d, SEQ_MOD);
  }

  lemma LaterDiffers(sn: Seq, d: nat)
    requires 0 < d < SEQ_MOD
    ensures Later(sn, d) != sn
  {
    var n: int := sn;
    ModArith.Small(n + d, SEQ_MOD);
    ModArith.Shift(n + d, -1, SEQ_MOD);
    ModArith.Small(n + d - SEQ_MOD, SEQ_MOD);
  }

  lemma {:induction false} LaterNumbers(pkts: seq<Packet>, k: nat)
    requires Consecutive(pkts) && k < |pkts| && |pkts| - k < SEQ_MOD
    ensures forall m :: k < m < |pkts| ==> pkts[m].sn == Later(pkts[k].sn, m - k) && pkts[m].sn != pkts[k].sn
  {
    forall m | k < m < |pkts|
      ensures pkts[m].sn == Later(pkts[k].sn, m - k) && pkts[m].sn != pkts[k].sn
    {
      LaterLater(pkts[0].sn, k, m - k);
      LaterDiffers(pkts[k].sn, m - k);
    }
  }

  /** Exactly how far back a request can reach: after any consecutive run of sends,
      including wraps, the request for the `k`th packet finds that packet if and only
      if fewer than `Lifetime` packets were sent after it. */
  lemma {:induction false} CacheWindow(s: Sender, ps: Params, pkts: seq<Packet>, k: nat)
    requires |s.cache| == CACHE_SIZE && s.first && Retransmits(ps) && Consecutive(pkts) && k < |pkts| && |pkts| - k < SEQ_MOD
    ensures var c := SendAll(s, ps, pkts).0.cache;
            && (Lookup(c, pkts[k].sn) == Some(pkts[k]) <==> |pkts| - 1 - k < Lifetime(pkts[k].sn))
            && (Lookup(c, pkts[k].sn) in {None, Some(pkts[k])})
  {
    var sn, life := pkts[k].sn, Lifetime(pkts[k].sn);
    ConsecutiveAccepted(s, ps, pkts);
    FirstShared(sn);
    LaterNumbers(pkts, k);
    if |pkts| - 1 - k < life {
      SlotHoldsLast(s, ps, pkts, k);
    } else {
      SlotLoses(s, ps, pkts, k, k + life);
    }
  }

  /** So every one of the newest 536 packets can be retransmitted, whatever the wraps,
      and the newest 1000 when none of them lies in the last 536 numbers before a wrap. */
  lemma {:induction false} Newest536(s: Sender, ps: Params, pkts: seq<Packet>, k: nat)
    requires |s.cache| == CACHE_SIZE && s.first && Retransmits(ps) && Consecutive(pkts) && k < |pkts|
    ensures |pkts| - k <= 536 ==> Lookup(SendAll(s, ps, pkts).0.cache, pkts[k].sn) == Some(pkts[k])
    ensures |pkts| - k <= 1000 && pkts[k].sn < SEQ_MOD - 536 ==>
              Lookup(SendAll(s, ps, pkts).0.cache, pkts[k].sn) == Some(pkts[k])
  {
    if |pkts| - k < SEQ_MOD {
      CacheWindow(s, ps, pkts, k);
    }
  }

  /** 536 is the best possible: the 537th newest packet is lost whenever it is one of
      the last 536 numbers before a wrap. */
  lemma {:induction false} TightAt536(s: Sender, ps: Params, pkts: seq<Packet>, k: nat)
    requires |s.cache| == CACHE_SIZE && s.first && Retransmits(ps) && Consecutive(pkts) && k < |pkts| && |pkts| - k == 537
    ensures Lookup(SendAll(s, ps, pkts).0.cache, pkts[k].sn) == None <==> pkts[k].sn >= SEQ_MOD - 536
  {
    CacheWindow(s, ps, pkts, k);
  }

  /** The packet that the cache holds under a number. */
  ghost predicate Has(cache: seq<Option<Packet>>, sn: Seq)
    requires |cache| == 1000
  {
    var c := cache[sn % 1000];
    c.Some? && c.value.sn == sn
  }

  /** Of the numbers asked for, those that are cached, in the order asked and as often. */
  ghost function Hits(cache: seq<Option<Packet>>, lost: seq<Seq>): seq<Seq>
    requires |cache| == 1000
  {
    if lost == [] then [] else (if Has(cache, lost[0]) then [lost[0]] else []) + Hits(cache, lost[1..])
  }

  /** Stripping the padding of a cached packet changes nothing else. */
  lemma {:induction false} TouchedHas(cache: seq<Option<Packet>>, sn: Seq)
    requires |cache| == 1000
    ensures forall k :: Has(Touched(cache, sn), k) <==> Has(cache, k)
    ensures forall k :: Has(cache, k) ==> Touched(cache, sn)[k % 1000].value.payload == cache[k % 1000].value.payload
  {
  }

  lemma {:induction false} HitsSame(c: seq<Option<Packet>>, c': seq<Option<Packet>>, lost: seq<Seq>)
    requires |c| == |c'| == 1000 && forall k :: Has(c, k) <==> Has(c', k)
    ensures Hits(c, lost) == Hits(c', lost)
  {
    if lost != [] {
      HitsSame(c, c', lost[1..]);
    }
  }

  lemma {:induction false} HitsFirst(cache: seq<Option<Packet>>, lost: seq<Seq>)
    requires |cache| == 1000 && lost != [] && Has(cache, lost[0])
    ensures Hits(cache, lost) == [lost[0]] + Hits(Touched(cache, lost[0]), lost[1..])
    ensures Hits(cache, lost[1..]) == Hits(Touched(cache, lost[0]), lost[1..])
  {
    TouchedHas(cache, lost[0]);
    HitsSame(cache, Touched(cache, lost[0]), lost[1..]);
  }

  lemma {:induction false} HitsAreCached(cache: seq<Option<Packet>>, lost: seq<Seq>, i: nat)
    requires |cache| == 1000 && i < |Hits(cache, lost)|
    ensures Has(cache, Hits(cache, lost)[i])
  {
    if Has(cache, lost[0]) {
      if i > 0 {
        HitsAreCached(cache, lost[1..], i - 1);
      }
    } else {
      assert Hits(cache, lost) == Hits(cache, lost[1..]);
      HitsAreCached(cache, lost[1..], i);
    }
  }

  /** A retransmission, octet by octet: the number goes in front of the payload, the most
      significant octet first. */
  ghost predicate Carries(q: Packet, cache: seq<Option<Packet>>, ps: Params, sn: Seq, rtx: int)
    requires |cache| == 1000 && Has(cache, sn)
  {
    && q.ssrc == ps.rtxSsrc && q.payloadType == ps.rtxPayloadType && q.sn == rtx && q.padding == 0
    && q.payload == [sn as int / 256, sn as int % 256] + cache[sn % 1000].value.payload
  }

  lemma {:induction false} CarriesSame(q: Packet, cache: seq<Option<Packet>>, ps: Params, sn: Seq, k: Seq, rtx: int)
    requires |cache| == 1000 && Has(Touched(cache, sn), k) && Carries(q, Touched(cache, sn), ps, k, rtx)
    ensures Has(cache, k) && Carries(q, cache, ps, k, rtx)
  {
    TouchedHas(cache, sn);
  }

  lemma {:induction false} AnswerFirst(cache: seq<Option<Packet>>, ps: Params, rtxSeq: Seq, lost: seq<Seq>)
    requires |cache| == 1000 && ps.rtxSsrc != 0 && ps.rtxPayloadType != 0 && lost != [] && Has(cache, lost[0])
    ensures var all, n: int := Answer(cache, ps, rtxSeq, lost), (rtxSeq + 1) % 65536;
            var rest := Answer(Touched(cache, lost[0]), ps, n, lost[1..]);
            && all.0 != [] && all.0[1..] == rest.0 && all.2 == rest.2
            && Carries(all.0[0], cache, ps, lost[0], n)
  {
  }

  /** As many retransmissions as there are cached numbers among those asked for. */
  lemma {:induction false} AnswersCount(cache: seq<Option<Packet>>, ps: Params, rtxSeq: Seq, lost: seq<Seq>)
    requires |cache| == 1000 && ps.rtxSsrc != 0 && ps.rtxPayloadType != 0
    ensures var (out, _, n) := Answer(cache, ps, rtxSeq, lost);
            |out| == |Hits(cache, lost)| && n == (rtxSeq + |out|) % 65536
    decreases |lost|
  {
    if lost == [] {
      ModArith.Small(rtxSeq, 65536);
    } else if Has(cache, lost[0]) {
      AnswerFirst(cache, ps, rtxSeq, lost);
      HitsFirst(cache, lost);
      AnswersCount(Touched(cache, lost[0]), ps, (rtxSeq + 1) % 65536, lost[1..]);
      ModArith.Sum(rtxSeq + 1, |Hits(cache, lost)| - 1, 65536);
    } else {
      AnswersCount(cache, ps, rtxSeq, lost[1..]);
    }
  }

  /** An answer is complete: each number asked for that is cached is retransmitted, in order,
      under the next retransmission numbers. */
  lemma {:induction false} AnswersAll(cache: seq<Option<Packet>>, ps: Params, rtxSeq: Seq, lost: seq<Seq>, i: nat)
    requires |cache| == 1000 && ps.rtxSsrc != 0 && ps.rtxPayloadType != 0 && i < |Hits(cache, lost)|
    ensures |Answer(cache, ps, rtxSeq, lost).0| == |Hits(cache, lost)| && Has(cache, Hits(cache, lost)[i])
    ensures Carries(Answer(cache, ps, rtxSeq, lost).0[i], cache, ps, Hits(cache, lost)[i], (rtxSeq + 1 + i) % 65536)
    decreases |lost|
  {
    AnswersCount(cache, ps, rtxSeq, lost);
    if !Has(cache, lost[0]) {
      assert Hits(cache, lost) == Hits(cache, lost[1..]);
      AnswersAll(cache, ps, rtxSeq, lost[1..], i);
    } else {
      AnswerFirst(cache, ps, rtxSeq, lost);
      if i > 0 {
        AnswersNext(cache, ps, rtxSeq, lost, i);
      }
    }
  }

  lemma {:induction false} AnswersNext(cache: seq<Option<Packet>>, ps: Params, rtxSeq: Seq, lost: seq<Seq>, i: nat)
    requires |cache| == 1000 && ps.rtxSsrc != 0 && ps.rtxPayloadType != 0 && 0 < i < |Hits(cache, lost)|
    requires Has(cache, lost[0]) && |Answer(cache, ps, rtxSeq, lost).0| == |Hits(cache, lost)|
    ensures Has(cache, Hits(cache, lost)[i])
    ensures Carries(Answer(cache, ps, rtxSeq, lost).0[i], cache, ps, Hits(cache, lost)[i], (rtxSeq + 1 + i) % 65536)
    decreases |lost|, 0
  {
    var c', n: int := Touched(cache, lost[0]), (rtxSeq + 1) % 65536;
    AnswerFirst(cache, ps, rtxSeq, lost);
    HitsFirst(cache, lost);
    var q, k := Answer(cache, ps, rtxSeq, lost).0[i], Hits(cache, lost)[i];
    assert k == Hits(c', lost[1..])[i - 1] && q == Answer(c', ps, n, lost[1..]).0[i - 1];
    AnswersAll(c', ps, n, lost[1..], i - 1);
    ModArith.Sum(rtxSeq + 1, i, 65536);
    CarriesSame(q, cache, ps, lost[0], k, (rtxSeq + 1 + i) % 65536);
  }

  lemma {:induction false} HitAt(cache: seq<Option<Packet>>, lost: seq<Seq>, sn: Seq) returns (i: nat)
    requires |cache| == 1000 && sn in lost && Has(cache, sn)
    ensures i < |Hits(cache, lost)| && Hits(cache, lost)[i] == sn
  {
    if lost[0] == sn {
      i := 0;
    } else {
      i := HitAt(cache, lost[1..], sn);
      if Has(cache, lost[0]) {
        i := i + 1;
      } else {
        assert Hits(cache, lost) == Hits(cache, lost[1..]);
      }
    }
  }

  /** So a cached number is retransmitted, whatever else is asked for. */
  lemma {:induction false} AnswersCached(cache: seq<Option<Packet>>, ps: Params, rtxSeq: Seq, lost: seq<Seq>, sn: Seq)
    returns (p: Packet, n: Seq)
    requires |cache| == 1000 && ps.rtxSsrc != 0 && ps.rtxPayloadType != 0
    requires sn in lost && Lookup(cache, sn).Some?
    ensures p in Answer(cache, ps, rtxSeq, lost).0
    ensures p == RtxMux(Lookup(cache, sn).value, ps.rtxPayloadType, ps.rtxSsrc, n)
  {
    var i := HitAt(cache, lost, sn);
    AnswersAll(cache, ps, rtxSeq, lost, i);
    p, n := Answer(cache, ps, rtxSeq, lost).0[i], (rtxSeq + 1 + i) % 65536;
  }

  /** What was retransmitted stays cached without its padding, and nothing else changes. */
  lemma {:induction false} AnswerKeepsCached(cache: seq<Option<Packet>>, ps: Params, rtxSeq: Seq, lost: seq<Seq>, j: nat)
    requires |cache| == 1000 && ps.rtxSsrc != 0 && ps.rtxPayloadType != 0 && j < 1000
    ensures Answer(cache, ps, rtxSeq, lost).1[j]
            == if cache[j].Some? && cache[j].value.sn % 1000 == j && cache[j].value.sn in lost
               then Some(cache[j].value.(padding := 0)) else cache[j]
    decreases |lost|
  {
    if lost != [] {
      if Has(cache, lost[0]) {
        AnswerKeepsCached(Touched(cache, lost[0]), ps, (rtxSeq + 1) % 65536, lost[1..], j);
      } else {
        AnswerKeepsCached(cache, ps, rtxSeq, lost[1..], j);
      }
      assert forall sn :: sn in lost <==> sn == lost[0] || sn in lost[1..];
    }
  }

  /** Without a number or a payload type for retransmissions nothing is answered. */
  lemma {:induction false} NoAnswers(cache: seq<Option<Packet>>, ps: Params, rtxSeq: Seq, lost: seq<Seq>)
    requires |cache| == 1000 && (ps.rtxSsrc == 0 || ps.rtxPayloadType == 0)
    ensures Answer(cache, ps, rtxSeq, lost) == ([], cache, rtxSeq)
    decreases |lost|
  {
    if lost != [] {
      NoAnswers(cache, ps, rtxSeq, lost[1..]);
    }
  }

  /** Whatever is asked for, an answer only carries cached packets, under the numbers
      that were asked for, behind increasing retransmission numbers. */
  lemma {:induction false} AnswersAreAsked(cache: seq<Option<Packet>>, ps: Params, rtxSeq: Seq, lost: seq<Seq>, i: nat)
    requires |cache| == CACHE_SIZE && i < |Answer(cache, ps, rtxSeq, lost).0|
    ensures var q := Answer(cache, ps, rtxSeq, lost).0[i];
            && q.ssrc == ps.rtxSsrc && q.payloadType == ps.rtxPayloadType
            && q.sn == (rtxSeq + 1 + i) % SEQ_MOD && |q.payload| >= 2
            && var sn := Read2Bytes(q.payload);
               sn in lost && Lookup(cache, sn).Some? && Lookup(cache, sn).value.payload == q.payload[2..]
    decreases |lost|
  {
    if Lookup(cache, lost[0]).None? || ps.rtxSsrc == 0 || ps.rtxPayloadType == 0 {
      AnswersAreAsked(cache, ps, rtxSeq, lost[1..], i);
    } else {
      var p, n := Lookup(cache, lost[0]).value, (rtxSeq + 1) % SEQ_MOD;
      if i == 0 {
        DemuxMux(p, ps.rtxPayloadType, ps.rtxSsrc, n);
      } else {
        AnswersAreAsked(Touched(cache, lost[0]), ps, n, lost[1..], i - 1);
        ModArith.Sum(rtxSeq + 1, i, SEQ_MOD);
      }
    }
  }
}
