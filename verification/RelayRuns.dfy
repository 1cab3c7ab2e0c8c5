/** Recovery between two nodes: whole runs of a sending and a receiving relay over a
    network that loses, delays, reorders and repeats packets. */
module RelayRuns {
  import opened Common
  import opened RtpSession
  import opened RtpPacket
  import RtpSendSession
  import RtpRecvSession
  import RtxCache
  import NackGenerator
  import NackRuns
  import RtcRecvRelay
  import ModArith

  type Losses = NackGenerator.Losses

  /** One stream with retransmission, as both ends know it. */
  datatype Stream = Stream(ssrc: Uint32, payloadType: Byte, rtxSsrc: Uint32, rtxPayloadType: Byte, clockRate: nat, rtt: int)

  predicate Proper(l: Stream) {
    l.rtxSsrc != 0 && l.rtxPayloadType != 0 && l.rtxSsrc != l.ssrc && l.clockRate > 0
  }

  function SendParams(l: Stream): RtpSendSession.Params {
    RtpSendSession.Params(true, l.rtxSsrc, l.rtxPayloadType)
  }

  function RecvParams(l: Stream): RtpRecvSession.Params {
    RtpRecvSession.Params(l.ssrc, l.payloadType, true, l.rtxSsrc, l.clockRate)
  }

  /** Both ends; everything ever put on the wire; everything ever accepted for sending, also
      in order; the history of the receiver's loss tracking; and the first and all numbers
      that the receiving session accepted. */
  datatype Sys = Sys(snd: RtpSendSession.Sender, rtxSeq: Seq, wire: set<Packet>, sent: set<Packet>, log: seq<Packet>,
                     rcv: RtpRecvSession.RecvState, hist: NackRuns.Run, opening: Option<Seq>, accepted: set<Seq>)

  /** `Deliver` may repeat and reorder; not delivering is losing. A request may be for
      anything: what the receiver asked for can be lost or mangled on the way. */
  datatype Event = Emit(p: Packet) | Ask(lost: seq<Seq>) | Deliver(p: Packet) | Tick(now: int, left: Losses)

  function Start(clock: int): Sys {
    Sys(RtpSendSession.Sender(true, State(0, 0, 0, 0, 0), seq(RtpSendSession.CACHE_SIZE, _ => None)), 0, {}, {}, [],
        RtpRecvSession.Recv(true, State(0, 0, 0, 0, 0), NackGenerator.Nacks(false, 0, map[])), NackRuns.Start(clock), None, {})
  }

  /** The original number of an asked-for retransmission. */
  function Unwrapped(s: Sys, l: Stream, p: Packet): Option<Seq> {
    match RtxDemux(p, l.ssrc, l.payloadType)
    case None => None
    case Some(q) => if q.sn in s.rcv.nacks.losses then Some(q.sn) else None
  }

  /** The number a delivery shows to the loss tracking. */
  function Shows(s: Sys, l: Stream, p: Packet): Option<Seq> {
    if p.ssrc != l.rtxSsrc then RtpRecvSession.Shown(s.rcv, RecvParams(l), p.sn)
    else if Unwrapped(s, l, p).Some? then RtpRecvSession.Shown(s.rcv, RecvParams(l), Unwrapped(s, l, p).value)
    else None
  }

  /** The number that the receiving session accepts by a delivery. */
  function Accepts(s: Sys, l: Stream, p: Packet): Option<Seq> {
    var sn := if p.ssrc != l.rtxSsrc then Some(p.sn) else Unwrapped(s, l, p);
    if sn.Some? && RtpRecvSession.ReceiveRtp(s.rcv, RecvParams(l), sn.value).1 then sn else None
  }

  ghost predicate Allowed(s: Sys, l: Stream, e: Event) {
    match e
    case Emit(p) => p.ssrc == l.ssrc && forall q :: q in s.sent ==> q.sn != p.sn
    case Ask(lost) => true
    case Deliver(p) => p in s.wire
    case Tick(now, left) => NackRuns.Possible(s.hist, l.rtt, NackRuns.Tick(now, left))
  }

  /** Within one cycle: what the loss tracking sees is less than half the circle from
      the newest number it has seen. */
  ghost predicate Near(s: Sys, l: Stream, e: Event) {
    e.Deliver? && Shows(s, l, e.p).Some? ==>
      NackRuns.Possible(s.hist, l.rtt, NackRuns.Packet(Shows(s, l, e.p).value))
  }

  function Forwarded(s: Sys, l: Stream, p: Packet): Option<Packet> {
    RtcRecvRelay.Handled(s.rcv, RecvParams(l), p, p.ssrc == l.rtxSsrc).1
  }

  ghost function Next(s: Sys, l: Stream, e: Event): Sys
    requires |s.snd.cache| == RtpSendSession.CACHE_SIZE
  {
    match e
    case Emit(p) =>
      var (snd, ok) := RtpSendSession.Send(s.snd, SendParams(l), p);
      s.(snd := snd, wire := s.wire + (if ok then {p} else {}), sent := s.sent + (if ok then {p} else {}),
         log := s.log + (if ok then [p] else []))
    case Ask(lost) =>
      var (out, cache, n) := RtpSendSession.Answer(s.snd.cache, SendParams(l), s.rtxSeq, lost);
      s.(snd := s.snd.(cache := cache), rtxSeq := n, wire := s.wire + (set p | p in out))
    case Deliver(p) =>
      s.(rcv := RtcRecvRelay.Handled(s.rcv, RecvParams(l), p, p.ssrc == l.rtxSsrc).0,
         hist := if Shows(s, l, p).None? then s.hist
                 else NackRuns.Next(s.hist, l.rtt, NackRuns.Packet(Shows(s, l, p).value)),
         opening := if s.opening.None? then Accepts(s, l, p) else s.opening,
         accepted := s.accepted + if Accepts(s, l, p).Some? then {Accepts(s, l, p).value} else {})
    case Tick(now, left) =>
      s.(rcv := s.rcv.(nacks := s.rcv.nacks.(losses := left)),
         hist := NackRuns.Next(s.hist, l.rtt, NackRuns.Tick(now, left)))
  }

  // ----- the invariant

  /** What is cached was sent; a retransmission may have cost it its padding. */
  ghost predicate Cached(c: Option<Packet>, sent: set<Packet>) {
    c.Some? ==> exists q :: q in sent && c.value.(padding := 0) == q.(padding := 0)
  }

  ghost predicate CacheGenuine(cache: seq<Option<Packet>>, sent: set<Packet>) {
    forall i :: 0 <= i < |cache| ==> Cached(cache[i], sent)
  }

  /** `p` carries the number and the payload of `q`. */
  predicate Wraps(p: Packet, q: Packet) {
    |p.payload| >= 2 && q.sn == Read2Bytes(p.payload) && q.payload == p.payload[2..]
  }

  /** A packet on the wire is one that was sent, or wraps one that was sent. */
  ghost predicate Genuine(p: Packet, l: Stream, sent: set<Packet>) {
    if p.ssrc == l.rtxSsrc then exists q :: q in sent && Wraps(p, q) else p in sent
  }

  /** The slot of `q` holds it, perhaps without its padding. */
  ghost predicate Holds(cache: seq<Option<Packet>>, q: Packet)
    requires |cache| == RtpSendSession.CACHE_SIZE
  {
    var c := cache[RtpSendSession.Slot(q.sn)];
    c.Some? && c.value.(padding := 0) == q.(padding := 0)
  }

  ghost predicate LastInSlot(log: seq<Packet>, k: nat)
    requires k < |log|
  {
    forall m :: k < m < |log| ==> RtpSendSession.Slot(log[m].sn) != RtpSendSession.Slot(log[k].sn)
  }

  /** Each slot holds the last packet sent into it. */
  ghost predicate Mirrors(cache: seq<Option<Packet>>, log: seq<Packet>)
    requires |cache| == RtpSendSession.CACHE_SIZE
  {
    forall k :: 0 <= k < |log| && LastInSlot(log, k) ==> Holds(cache, log[k])
  }

  ghost predicate SentUnder(log: seq<Packet>, k: Seq) {
    exists i :: 0 <= i < |log| && log[i].sn == k
  }

  /** The session accepted what the loss tracking has seen, and its first packet. */
  ghost predicate Accounted(s: Sys) {
    && (s.rcv.first <==> s.opening.None?)
    && s.accepted == s.hist.received + (if s.opening.None? then {} else {s.opening.value})
    && (s.opening.None? ==> s.hist.received == {})
  }

  /** The sending end and the wire. */
  ghost predicate Sending(s: Sys, l: Stream) {
    && |s.snd.cache| == RtpSendSession.CACHE_SIZE
    && CacheGenuine(s.snd.cache, s.sent) && Mirrors(s.snd.cache, s.log)
    && (forall p :: p in s.wire ==> Genuine(p, l, s.sent))
    && (forall q :: q in s.sent <==> q in s.log) && (forall q :: q in s.sent ==> q.ssrc == l.ssrc)
    && (forall q, q' :: q in s.sent && q' in s.sent && q.sn == q'.sn ==> q == q')
  }

  /** The receiving end. */
  ghost predicate Receiving(s: Sys, l: Stream) {
    && s.hist.st == s.rcv.nacks && (s.rcv.first ==> !s.hist.st.init)
    && NackRuns.Good(s.hist, l.rtt) && Accounted(s)
  }

  /** What has been received was sent. */
  ghost predicate Linked(s: Sys) {
    forall k :: k in s.hist.received ==> SentUnder(s.log, k)
  }

  ghost predicate Inv(s: Sys, l: Stream) {
    Sending(s, l) && Receiving(s, l) && Linked(s)
  }

  lemma {:induction false} AnswerKeepsCache(cache: seq<Option<Packet>>, ps: RtpSendSession.Params, n: Seq,
                                                lost: seq<Seq>, sent: set<Packet>)
    requires |cache| == RtpSendSession.CACHE_SIZE && CacheGenuine(cache, sent)
    ensures CacheGenuine(RtpSendSession.Answer(cache, ps, n, lost).1, sent)
    decreases |lost|
  {
    if lost != [] {
      var c := RtpSendSession.Lookup(cache, lost[0]);
      if c.None? || ps.rtxSsrc == 0 || ps.rtxPayloadType == 0 {
        AnswerKeepsCache(cache, ps, n, lost[1..], sent);
      } else {
        var cache' := RtpSendSession.Touched(cache, lost[0]);
        assert Cached(c, sent);
        assert CacheGenuine(cache', sent);
        AnswerKeepsCache(cache', ps, (n + 1) % SEQ_MOD, lost[1..], sent);
      }
    }
  }

  lemma {:induction false} AnswersGenuine(cache: seq<Option<Packet>>, l: Stream, n: Seq, lost: seq<Seq>,
                                          sent: set<Packet>, p: Packet)
    requires |cache| == RtpSendSession.CACHE_SIZE && CacheGenuine(cache, sent)
    requires p in RtpSendSession.Answer(cache, SendParams(l), n, lost).0
    ensures Genuine(p, l, sent)
  {
    var out := RtpSendSession.Answer(cache, SendParams(l), n, lost).0;
    var i :| 0 <= i < |out| && out[i] == p;
    RtxCache.AnswersAreAsked(cache, SendParams(l), n, lost, i);
    var sn := Read2Bytes(p.payload);
    assert Cached(cache[RtpSendSession.Slot(sn)], sent);
  }

  lemma {:induction false} StoreKeepsMirror(cache: seq<Option<Packet>>, log: seq<Packet>, p: Packet)
    requires |cache| == RtpSendSession.CACHE_SIZE && Mirrors(cache, log)
    ensures Mirrors(RtpSendSession.Stored(cache, p), log + [p])
  {
    var log', cache' := log + [p], RtpSendSession.Stored(cache, p);
    forall k | 0 <= k < |log'| && LastInSlot(log', k)
      ensures Holds(cache', log'[k])
    {
      if k < |log| {
        assert RtpSendSession.Slot(log'[|log|].sn) != RtpSendSession.Slot(log'[k].sn);
        assert LastInSlot(log, k) by {
          forall m | k < m < |log|
            ensures RtpSendSession.Slot(log[m].sn) != RtpSendSession.Slot(log[k].sn)
          {
            assert log'[m] == log[m] && log'[k] == log[k];
          }
        }
      }
    }
  }

  lemma {:induction false} AnswerKeepsHold(cache: seq<Option<Packet>>, ps: RtpSendSession.Params, n: Seq,
                                               lost: seq<Seq>, q: Packet)
    requires |cache| == RtpSendSession.CACHE_SIZE && Holds(cache, q)
    ensures Holds(RtpSendSession.Answer(cache, ps, n, lost).1, q)
    decreases |lost|
  {
    if lost != [] {
      var c := RtpSendSession.Lookup(cache, lost[0]);
      if c.None? || ps.rtxSsrc == 0 || ps.rtxPayloadType == 0 {
        AnswerKeepsHold(cache, ps, n, lost[1..], q);
      } else {
        AnswerKeepsHold(RtpSendSession.Touched(cache, lost[0]), ps, (n + 1) % SEQ_MOD, lost[1..], q);
      }
    }
  }

  lemma {:induction false} EmitKeepsGenuine(s: Sys, l: Stream, p: Packet)
    requires Proper(l) && Sending(s, l) && p.ssrc == l.ssrc
    ensures CacheGenuine(RtpSendSession.Stored(s.snd.cache, p), s.sent + {p})
    ensures forall q :: q in s.wire + {p} ==> Genuine(q, l, s.sent + {p})
  {
    var cache := RtpSendSession.Stored(s.snd.cache, p);
    forall i | 0 <= i < |cache|
      ensures Cached(cache[i], s.sent + {p})
    {
      assert Cached(s.snd.cache[i], s.sent);
    }
    forall q | q in s.wire + {p}
      ensures Genuine(q, l, s.sent + {p})
    {
      assert q in s.wire ==> Genuine(q, l, s.sent);
    }
  }

  lemma {:induction false} EmitKeepsSending(s: Sys, l: Stream, p: Packet)
    requires Proper(l) && Sending(s, l) && Allowed(s, l, Emit(p))
    ensures Sending(Next(s, l, Emit(p)), l)
  {
    var s', ok := Next(s, l, Emit(p)), RtpSendSession.Send(s.snd, SendParams(l), p).1;
    if !ok {
      assert s'.log == s.log && s'.sent == s.sent && s'.wire == s.wire;
    } else {
      StoreKeepsMirror(s.snd.cache, s.log, p);
      EmitKeepsGenuine(s, l, p);
      assert forall q :: q in s.log + [p] <==> q in s.log || q == p;
    }
  }

  lemma {:induction false} EmitKeeps(s: Sys, l: Stream, p: Packet)
    requires Proper(l) && Inv(s, l) && Allowed(s, l, Emit(p))
    ensures Inv(Next(s, l, Emit(p)), l)
  {
    var s' := Next(s, l, Emit(p));
    EmitKeepsSending(s, l, p);
    if RtpSendSession.Send(s.snd, SendParams(l), p).1 {
      forall k | k in s.hist.received
        ensures SentUnder(s'.log, k)
      {
        var i :| 0 <= i < |s.log| && s.log[i].sn == k;
        assert s'.log[i].sn == k;
      }
    } else {
      assert s'.log == s.log;
    }
  }

  lemma {:induction false} AskKeeps(s: Sys, l: Stream, lost: seq<Seq>)
    requires Proper(l) && Inv(s, l)
    ensures Inv(Next(s, l, Ask(lost)), l)
  {
    AnswerKeepsCache(s.snd.cache, SendParams(l), s.rtxSeq, lost, s.sent);
    forall p | p in RtpSendSession.Answer(s.snd.cache, SendParams(l), s.rtxSeq, lost).0
      ensures Genuine(p, l, s.sent)
    {
      AnswersGenuine(s.snd.cache, l, s.rtxSeq, lost, s.sent, p);
    }
    forall k | 0 <= k < |s.log| && LastInSlot(s.log, k)
      ensures Holds(RtpSendSession.Answer(s.snd.cache, SendParams(l), s.rtxSeq, lost).1, s.log[k])
    {
      AnswerKeepsHold(s.snd.cache, SendParams(l), s.rtxSeq, lost, s.log[k]);
    }
  }

  /** The receiver's losses move just as the history's do, and what it accepts is what the
      loss tracking is shown, the first packet apart. */
  lemma {:induction false} DeliverTracks(s: Sys, l: Stream, p: Packet)
    requires Proper(l) && Receiving(s, l) && |s.snd.cache| == RtpSendSession.CACHE_SIZE
    ensures var s' := Next(s, l, Deliver(p));
            s'.hist.st == s'.rcv.nacks && (s'.rcv.first ==> !s'.hist.st.init) && Accounted(s')
  {
  }

  lemma {:induction false} DeliversSent(s: Sys, l: Stream, p: Packet)
    requires Proper(l) && Sending(s, l) && p in s.wire && Shows(s, l, p).Some?
    ensures SentUnder(s.log, Shows(s, l, p).value)
  {
    assert Genuine(p, l, s.sent);
    if p.ssrc == l.rtxSsrc {
      var q :| q in s.sent && Wraps(p, q);
      var i :| 0 <= i < |s.log| && s.log[i] == q;
      assert s.log[i].sn == q.sn;
    } else {
      var i :| 0 <= i < |s.log| && s.log[i] == p;
      assert s.log[i].sn == p.sn;
    }
  }

  lemma {:induction false} DeliverKeeps(s: Sys, l: Stream, p: Packet)
    requires Proper(l) && Inv(s, l) && p in s.wire && Near(s, l, Deliver(p))
    ensures Inv(Next(s, l, Deliver(p)), l)
  {
    DeliverTracks(s, l, p);
    if Shows(s, l, p).Some? {
      DeliversSent(s, l, p);
      NackRuns.StepGood(s.hist, l.rtt, NackRuns.Packet(Shows(s, l, p).value));
    }
  }

  lemma {:induction false} StepKeeps(s: Sys, l: Stream, e: Event)
    requires Proper(l) && Inv(s, l) && Allowed(s, l, e) && Near(s, l, e)
    ensures Inv(Next(s, l, e), l)
  {
    match e {
      case Emit(p) => EmitKeeps(s, l, p);
      case Ask(lost) => AskKeeps(s, l, lost);
      case Deliver(p) => DeliverKeeps(s, l, p);
      case Tick(now, left) =>
        NackRuns.StepGood(s.hist, l.rtt, NackRuns.Tick(now, left));
    }
  }

  lemma {:induction false} StepReceives(s: Sys, l: Stream, e: Event)
    requires |s.snd.cache| == RtpSendSession.CACHE_SIZE
    ensures s.hist.received <= Next(s, l, e).hist.received
  {
  }

  ghost predicate Runs(s: Sys, l: Stream, es: seq<Event>)
    requires |s.snd.cache| == RtpSendSession.CACHE_SIZE
    decreases |es|
  {
    es != [] ==>
      Allowed(s, l, es[0]) && Near(s, l, es[0]) && Runs(Next(s, l, es[0]), l, es[1..])
  }

  ghost function Exec(s: Sys, l: Stream, es: seq<Event>): (s': Sys)
    requires |s.snd.cache| == RtpSendSession.CACHE_SIZE
    ensures |s'.snd.cache| == RtpSendSession.CACHE_SIZE
    decreases |es|
  {
    if es == [] then s else Exec(Next(s, l, es[0]), l, es[1..])
  }

  /** The invariant holds throughout a run, and what was once received stays received. */
  lemma {:induction false} RunKeeps(s: Sys, l: Stream, es: seq<Event>)
    requires Proper(l) && Inv(s, l) && Runs(s, l, es)
    ensures Inv(Exec(s, l, es), l)
    ensures s.hist.received <= Exec(s, l, es).hist.received
    decreases |es|
  {
    if es != [] {
      StepKeeps(s, l, es[0]);
      StepReceives(s, l, es[0]);
      RunKeeps(Next(s, l, es[0]), l, es[1..]);
    }
  }

  // ----- what recovery guarantees

  lemma {:induction false} StartInv(l: Stream, clock: int)
    ensures Inv(Start(clock), l)
  {
  }

  lemma {:induction false} RecoveredWraps(s: Sys, l: Stream, p: Packet)
    requires Proper(l) && Inv(s, l) && p in s.wire && p.ssrc == l.rtxSsrc && Forwarded(s, l, p).Some?
    ensures var f := Forwarded(s, l, p).value;
            && Shows(s, l, p) == Some(f.sn)
            && f.sn in s.rcv.nacks.losses && f.ssrc == l.ssrc
            && exists q :: q in s.sent && q.sn == f.sn && q.payload == f.payload
  {
    assert Genuine(p, l, s.sent);
  }

  /** After any run, a retransmission that the receiving relay forwards is the one packet
      the sending relay sent under its number, and that number was missing: it had not
      been shown to the loss tracking. Afterwards it has. */
  lemma {:induction false} RecoveredIsGenuine(l: Stream, clock: int, es: seq<Event>, p: Packet)
    requires Proper(l) && Runs(Start(clock), l, es)
    requires var s := Exec(Start(clock), l, es);
             p in s.wire && p.ssrc == l.rtxSsrc && Near(s, l, Deliver(p)) && Forwarded(s, l, p).Some?
    ensures var s, s' := Exec(Start(clock), l, es), Next(Exec(Start(clock), l, es), l, Deliver(p));
            var f := Forwarded(s, l, p).value;
            && (exists q :: q in s.sent && q.sn == f.sn && q.payload == f.payload && q.ssrc == f.ssrc)
            && (forall q :: q in s.sent && q.sn == f.sn ==> q.payload == f.payload)
            && f.sn in s.rcv.nacks.losses && f.sn !in s.hist.received
            && f.sn !in s'.rcv.nacks.losses && f.sn in s'.hist.received
  {
    StartInv(l, clock);
    RunKeeps(Start(clock), l, es);
    var s := Exec(Start(clock), l, es);
    RecoveredWraps(s, l, p);
    StepKeeps(s, l, Deliver(p));
  }

  /** And a packet of the stream itself is forwarded only as it was sent. */
  lemma {:induction false} MediaIsGenuine(l: Stream, clock: int, es: seq<Event>, p: Packet)
    requires Proper(l) && Runs(Start(clock), l, es)
    requires var s := Exec(Start(clock), l, es); p in s.wire && p.ssrc != l.rtxSsrc && Forwarded(s, l, p).Some?
    ensures var s := Exec(Start(clock), l, es); Forwarded(s, l, p).value == p && p in s.sent
  {
    StartInv(l, clock);
    RunKeeps(Start(clock), l, es);
    assert Genuine(p, l, Exec(Start(clock), l, es).sent);
  }

  lemma {:induction false} SeenIsNoLoss(s: Sys, l: Stream, k: Seq)
    requires Inv(s, l) && k in s.hist.received
    ensures !s.rcv.first && k !in s.rcv.nacks.losses
  {
  }

  /** A retransmission that is not missing changes nothing. */
  lemma {:induction false} RepeatIsFlagged(s: Sys, l: Stream, p: Packet)
    requires Proper(l) && |s.snd.cache| == RtpSendSession.CACHE_SIZE && !s.rcv.first
    requires p.ssrc == l.rtxSsrc && |p.payload| >= 2 && Read2Bytes(p.payload) !in s.rcv.nacks.losses
    ensures RtpRecvSession.ReceiveRtx(s.rcv, RecvParams(l), p).1.repeated
    ensures Forwarded(s, l, p) == None && Next(s, l, Deliver(p)) == s
  {
  }

  /** Once the loss tracking has seen a number, every further retransmission of it, at any
      later time, is flagged as repeated and not forwarded. */
  lemma {:induction false} NeverTwice(s: Sys, l: Stream, es: seq<Event>, p: Packet)
    requires Proper(l) && Inv(s, l) && Runs(s, l, es)
    requires p.ssrc == l.rtxSsrc && |p.payload| >= 2 && Read2Bytes(p.payload) in s.hist.received
    ensures var t := Exec(s, l, es);
            && RtpRecvSession.ReceiveRtx(t.rcv, RecvParams(l), p).1.repeated
            && Forwarded(t, l, p) == None && Next(t, l, Deliver(p)) == t
  {
    RunKeeps(s, l, es);
    SeenIsNoLoss(Exec(s, l, es), l, Read2Bytes(p.payload));
    RepeatIsFlagged(Exec(s, l, es), l, p);
  }

  /** What the sequence tracking lets through: less than 3000 ahead of the newest number, less
      than 1500 behind it, or the one number that a refusal has put on probation. */
  predicate LetThrough(st: State, sn: Seq) {
    Ahead(st.max, sn) < 3000 || Ahead(st.max, sn) > 65536 - 1500 || sn == st.bad
  }

  /** The packet as the room gets it. */
  function Restored(q: Packet, l: Stream): Packet {
    q.(payloadType := l.payloadType, padding := 0)
  }

  /** What wraps a missing packet is forwarded as that packet, if it has a payload and its
      number is let through, and else not at all. */
  lemma {:induction false} ForwardsMissing(s: Sys, l: Stream, q: Packet, n: Seq)
    requires Proper(l) && Receiving(s, l) && q.sn in s.rcv.nacks.losses && q.ssrc == l.ssrc
    ensures Forwarded(s, l, RtxMux(q, l.rtxPayloadType, l.rtxSsrc, n))
            == if q.payload != [] && LetThrough(s.rcv.rtp, q.sn) then Some(Restored(q, l)) else None
  {
    var p := RtxMux(q, l.rtxPayloadType, l.rtxSsrc, n);
    DemuxMux(q, l.rtxPayloadType, l.rtxSsrc, n);
    assert p.payload[2..] == q.payload;
    assert RtxDemux(p, l.ssrc, l.payloadType) == Some(Restored(q, l));
  }

  /** A request puts its answers on the wire and leaves the receiving end alone. */
  lemma {:induction false} AskLeavesReceiver(s: Sys, l: Stream, lost: seq<Seq>, p: Packet)
    requires |s.snd.cache| == RtpSendSession.CACHE_SIZE
    ensures Forwarded(Next(s, l, Ask(lost)), l, p) == Forwarded(s, l, p)
    ensures p in RtpSendSession.Answer(s.snd.cache, SendParams(l), s.rtxSeq, lost).0 ==> p in Next(s, l, Ask(lost)).wire
  {
  }

  /** When a missing packet is still cached at the sender, one request that gets through, for
      whatever else besides, puts its retransmission on the wire, and that is forwarded, as
      the packet was sent, exactly when the packet has a payload and its number is let
      through. */
  lemma {:induction false} MissingIsRecoveredIff(s: Sys, l: Stream, lost: seq<Seq>, sn: Seq) returns (p: Packet)
    requires Proper(l) && Inv(s, l) && sn in s.rcv.nacks.losses && sn in lost
    requires RtpSendSession.Lookup(s.snd.cache, sn).Some?
    ensures var q, asked := RtpSendSession.Lookup(s.snd.cache, sn).value, Next(s, l, Ask(lost));
            && p in asked.wire && p.ssrc == l.rtxSsrc && |p.payload| >= 2 && Read2Bytes(p.payload) == sn
            && Forwarded(asked, l, p)
               == if q.payload != [] && LetThrough(s.rcv.rtp, sn) then Some(Restored(q, l)) else None
  {
    var q, n := RtpSendSession.Lookup(s.snd.cache, sn).value, 0;
    p, n := RtxCache.AnswersCached(s.snd.cache, SendParams(l), s.rtxSeq, lost, sn);
    assert Cached(s.snd.cache[RtpSendSession.Slot(sn)], s.sent);
    ForwardsMissing(s, l, q, n);
    DemuxMux(q, l.rtxPayloadType, l.rtxSsrc, n);
    AskLeavesReceiver(s, l, lost, p);
  }

  /** The sends so far are numbered consecutively and do not wrap. */
  ghost predicate Straight(log: seq<Packet>) {
    forall i :: 0 <= i < |log| ==> log[i].sn as int == log[0].sn as int + i
  }

  /** Whatever was requested in between, the newest 536 sent are still cached. */
  lemma {:induction false} NewestAreCached(s: Sys, l: Stream, k: nat)
    requires Inv(s, l) && RtxCache.Consecutive(s.log) && k < |s.log| && |s.log| - k <= 536
    ensures var c := RtpSendSession.Lookup(s.snd.cache, s.log[k].sn);
            c.Some? && c.value.(padding := 0) == s.log[k].(padding := 0)
  {
    RtxCache.FirstShared(s.log[k].sn);
    RtxCache.LaterNumbers(s.log, k);
    assert LastInSlot(s.log, k);
    assert Holds(s.snd.cache, s.log[k]);
  }

  lemma {:induction false} StraightIsConsecutive(log: seq<Packet>)
    requires Straight(log)
    ensures RtxCache.Consecutive(log)
  {
    forall k | 0 <= k < |log|
      ensures log[k].sn == Later(log[0].sn, k)
    {
      ModArith.Small(log[0].sn + k, SEQ_MOD);
    }
  }

  lemma {:induction false} BehindInLog(log: seq<Packet>, i: nat, k: nat)
    requires Straight(log) && k < |log| && i < |log| && |log| - k <= 536 && log[k].sn < log[i].sn
    ensures Ahead(log[i].sn, log[k].sn) > SEQ_MOD - MAX_MISORDER
  {
    assert log[i].sn as int == log[0].sn as int + i && log[k].sn as int == log[0].sn as int + k;
    ModArith.Small(k - i, SEQ_MOD);
  }

  /** A missing number among the newest 536 sent is at most 535 behind the newest received. */
  lemma {:induction false} WithinReach(s: Sys, l: Stream, k: nat)
    requires Inv(s, l) && Straight(s.log) && k < |s.log| && |s.log| - k <= 536
    requires s.log[k].sn in s.rcv.nacks.losses && s.rcv.rtp.max == s.hist.st.last
    ensures Ahead(s.rcv.rtp.max, s.log[k].sn) > SEQ_MOD - MAX_MISORDER
  {
    var i :| 0 <= i < |s.log| && s.log[i].sn == s.hist.st.last;
    BehindInLog(s.log, i, k);
  }

  /** The answer to a request, once delivered, recovers the `k`th packet sent. */
  ghost predicate Recovers(s: Sys, l: Stream, lost: seq<Seq>, k: nat)
    requires |s.snd.cache| == RtpSendSession.CACHE_SIZE && k < |s.log|
  {
    var asked := Next(s, l, Ask(lost));
    exists p :: p in asked.wire && p.ssrc == l.rtxSsrc && Forwarded(asked, l, p) == Some(Restored(s.log[k], l))
  }

  lemma {:induction false} ForwardedIsLetThrough(s: Sys, l: Stream, p: Packet)
    requires Proper(l) && !s.rcv.first && p.ssrc == l.rtxSsrc && Forwarded(s, l, p).Some?
    ensures Forwarded(s, l, p).value.payload != [] && LetThrough(s.rcv.rtp, Forwarded(s, l, p).value.sn)
  {
  }

  /** In any run of consecutive sends, wraps included, with requests and losses interleaved
      at will, one request that gets through and asks for a missing number among the newest
      536 sent, whatever else it asks for, recovers that packet exactly when it has a payload
      and its number is let through. */
  lemma {:induction false} NewestAreRecovered(l: Stream, clock: int, es: seq<Event>, lost: seq<Seq>, k: nat)
    requires Proper(l) && Runs(Start(clock), l, es)
    requires var s := Exec(Start(clock), l, es);
             && RtxCache.Consecutive(s.log) && k < |s.log| && |s.log| - k <= 536
             && s.log[k].sn in s.rcv.nacks.losses && s.log[k].sn in lost
    ensures var s := Exec(Start(clock), l, es);
            Recovers(s, l, lost, k) <==> s.log[k].payload != [] && LetThrough(s.rcv.rtp, s.log[k].sn)
  {
    StartInv(l, clock);
    RunKeeps(Start(clock), l, es);
    var s := Exec(Start(clock), l, es);
    var sn := s.log[k].sn;
    NewestAreCached(s, l, k);
    var p := MissingIsRecoveredIff(s, l, lost, sn);
    var q := RtpSendSession.Lookup(s.snd.cache, sn).value;
    assert Restored(q, l) == Restored(s.log[k], l);
    var asked := Next(s, l, Ask(lost));
    if Recovers(s, l, lost, k) {
      var p' :| p' in asked.wire && p'.ssrc == l.rtxSsrc && Forwarded(asked, l, p') == Some(Restored(s.log[k], l));
      ForwardedIsLetThrough(asked, l, p');
    }
  }

  /** It is let through when the numbers sent do not wrap and the receiving session's newest
      number is that of the loss tracking: the session has not been thrown back by old
      packets. */
  lemma {:induction false} NewestAreLetThrough(l: Stream, clock: int, es: seq<Event>, k: nat)
    requires Proper(l) && Runs(Start(clock), l, es)
    requires var s := Exec(Start(clock), l, es);
             && Straight(s.log) && k < |s.log| && |s.log| - k <= 536
             && s.log[k].sn in s.rcv.nacks.losses && s.rcv.rtp.max == s.hist.st.last
    ensures var s := Exec(Start(clock), l, es);
            RtxCache.Consecutive(s.log) && LetThrough(s.rcv.rtp, s.log[k].sn)
  {
    StartInv(l, clock);
    RunKeeps(Start(clock), l, es);
    StraightIsConsecutive(Exec(Start(clock), l, es).log);
    WithinReach(Exec(Start(clock), l, es), l, k);
  }

  /** After any run, a number that the session has accepted is among the losses, and so
      requested, exactly when it is that of the session's first packet, which the loss
      tracking is not shown, and lies between the first and the newest number that it was
      shown, without having been shown again or dropped. */
  lemma {:induction false} RequestedThoughAccepted(l: Stream, clock: int, es: seq<Event>, k: Seq)
    requires Proper(l) && Runs(Start(clock), l, es)
    ensures var s := Exec(Start(clock), l, es);
            k in s.accepted && k in s.rcv.nacks.losses
            <==> s.opening == Some(k) && s.hist.st.init && s.hist.first < k < s.hist.st.last
                 && k !in s.hist.received && k !in s.hist.dropped
  {
    StartInv(l, clock);
    RunKeeps(Start(clock), l, es);
  }

  /** The receiver's first packet is not shown to the loss tracking: if two packets around
      it come next, the earlier one first, it is requested although it was received. */
  lemma {:induction false} FirstPacketBypasses(ps: RtpRecvSession.Params, first: Seq, a: Seq, b: Seq)
    requires ps.useNack && ps.clockRate > 0
    requires a < first < b && first - a < MAX_MISORDER && b - first < MAX_DROPOUT
    ensures var st0 := RtpRecvSession.Recv(true, State(0, 0, 0, 0, 0), NackGenerator.Nacks(false, 0, map[]));
            var st1 := RtpRecvSession.ReceiveRtp(st0, ps, first).0;
            var st2 := RtpRecvSession.ReceiveRtp(st1, ps, a).0;
            first in RtpRecvSession.ReceiveRtp(st2, ps, b).0.nacks.losses
  {
    var behind, ahead: int := a - first, b - first;
    assert Ahead(first, a) == behind + SEQ_MOD;
    assert Ahead(first, b) == ahead;
    assert (a + 1) % SEQ_MOD == a + 1;
  }

  // ----- staying within half a cycle

  /** All numbers sent and received lie in one half of the circle, from `lo` on. */
  ghost predicate InHalf(s: Sys, lo: int) {
    && (forall q :: q in s.sent ==> lo <= q.sn as int < lo + 32768)
    && (forall k :: k in s.hist.received ==> lo <= k as int < lo + 32768)
  }

  /** If all numbers the sender uses lie in one half, everything the loss tracking sees
      is near, and they go on lying in that half. */
  lemma {:induction false} HalfIsNear(s: Sys, l: Stream, e: Event, lo: int)
    requires Proper(l) && Inv(s, l) && Allowed(s, l, e) && InHalf(s, lo)
    requires e.Emit? ==> lo <= e.p.sn as int < lo + 32768
    ensures Near(s, l, e) && InHalf(Next(s, l, e), lo)
  {
    if e.Deliver? {
      assert Genuine(e.p, l, s.sent);
    }
  }
}
