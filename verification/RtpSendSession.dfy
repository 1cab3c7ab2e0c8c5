/** RTP packets as the relays handle them, and their RTX encapsulation (section 4 of
    RFC 4588): the original sequence number goes in front of the payload. */
module RtpPacket {
  import opened Common
  import opened RtpSession

  datatype Packet = Packet(ssrc: Uint32, payloadType: Byte, sn: Seq, payload: seq<Byte>, padding: nat)

  function Write2Bytes(x: Seq): seq<Byte> {
    [x as int / 256, x as int % 256]
  }

  function Read2Bytes(s: seq<Byte>): Seq
    requires |s| >= 2
  {
    var high: int, low: int := s[0], s[1];
    high * 256 + low
  }

  function RtxMux(p: Packet, payloadType: Byte, ssrc: Uint32, sn: Seq): Packet {
    Packet(ssrc, payloadType, sn, Write2Bytes(p.sn) + p.payload, 0)
  }

  /** Fails on a payload too short to hold a sequence number. */
  function RtxDemux(p: Packet, ssrc: Uint32, payloadType: Byte): Option<Packet> {
    if |p.payload| < 2 then None
    else Some(Packet(ssrc, payloadType, Read2Bytes(p.payload), p.payload[2..], 0))
  }

  /** The wrapped packet has the payload behind the number, whose high byte comes first.
      Unwrapping undoes wrapping, for every packet, up to the padding that wrapping drops. */
  lemma {:induction false} DemuxMux(p: Packet, payloadType: Byte, ssrc: Uint32, sn: Seq)
    ensures var q := RtxMux(p, payloadType, ssrc, sn);
            && q.ssrc == ssrc && q.payloadType == payloadType && q.sn == sn && q.padding == 0
            && q.payload == [p.sn as int / 256, p.sn as int % 256] + p.payload
    ensures RtxDemux(RtxMux(p, payloadType, ssrc, sn), p.ssrc, p.payloadType) == Some(p.(padding := 0))
  {
    assert (Write2Bytes(p.sn) + p.payload)[2..] == p.payload;
  }

  /** Wrapping undoes unwrapping of an unpadded packet. */
  lemma {:induction false} MuxDemux(p: Packet, ssrc: Uint32, payloadType: Byte)
    requires |p.payload| >= 2 && p.padding == 0
    ensures RtxMux(RtxDemux(p, ssrc, payloadType).value, p.payloadType, p.ssrc, p.sn) == p
  {
    var q := RtxDemux(p, ssrc, payloadType).value;
    assert Write2Bytes(q.sn) == p.payload[..2];
    assert p.payload[..2] + p.payload[2..] == p.payload;
  }
}

/** The sending side of a stream: a cache of 1000 packets, addressed by sequence number
    modulo 1000, answers requests for retransmission. */
module RtpSendSession {
  import opened Common
  import opened RtpSession
  import opened RtpPacket

  const CACHE_SIZE := 1000

  datatype Params = Params(useNack: bool, rtxSsrc: Uint32, rtxPayloadType: Byte)

  predicate Retransmits(ps: Params) {
    ps.useNack && ps.rtxSsrc != 0 && ps.rtxPayloadType != 0
  }

  function Slot(sn: Seq): nat {
    sn % CACHE_SIZE
  }

  /** The cache after a packet has been stored. */
  function Stored(cache: seq<Option<Packet>>, p: Packet): seq<Option<Packet>>
    requires |cache| == CACHE_SIZE
  {
    cache[Slot(p.sn) := Some(p)]
  }

  /** Sequence tracking and cache. */
  datatype Sender = Sender(first: bool, rtp: State, cache: seq<Option<Packet>>)

  /** A packet whose number is refused is neither sent nor cached. */
  function Send(s: Sender, ps: Params, p: Packet): (Sender, bool)
    requires |s.cache| == CACHE_SIZE
  {
    var (rtp, ok) := if s.first then (Init(p.sn, s.rtp.discards), true) else Update(s.rtp, p.sn);
    (Sender(false, rtp, if ok && Retransmits(ps) then Stored(s.cache, p) else s.cache), ok)
  }

  /** The packet that a request for `sn` retransmits, if any. */
  function Lookup(cache: seq<Option<Packet>>, sn: Seq): Option<Packet>
    requires |cache| == CACHE_SIZE
  {
    var c := cache[Slot(sn)];
    if c.Some? && c.value.sn == sn then c else None
  }

  /** A retransmitted packet stays in the cache without its padding. */
  function Touched(cache: seq<Option<Packet>>, sn: Seq): seq<Option<Packet>>
    requires |cache| == CACHE_SIZE
  {
    match Lookup(cache, sn)
    case None => cache
    case Some(p) => cache[Slot(sn) := Some(p.(padding := 0))]
  }

  /** What answering a list of requests sends, and the cache and counter after it. */
  function Answer(cache: seq<Option<Packet>>, ps: Params, rtxSeq: Seq, lost: seq<Seq>)
    : (r: (seq<Packet>, seq<Option<Packet>>, Seq))
    requires |cache| == CACHE_SIZE
    ensures |r.1| == CACHE_SIZE
    decreases |lost|
  {
    if lost == [] then ([], cache, rtxSeq)
    else if Lookup(cache, lost[0]).None? || ps.rtxSsrc == 0 || ps.rtxPayloadType == 0 then
      Answer(cache, ps, rtxSeq, lost[1..])
    else
      var n := (rtxSeq + 1) % SEQ_MOD;
      var rest := Answer(Touched(cache, lost[0]), ps, n, lost[1..]);
      ([RtxMux(Lookup(cache, lost[0]).value, ps.rtxPayloadType, ps.rtxSsrc, n)] + rest.0, rest.1, rest.2)
  }

  class Session {
    const ps: Params
    const rtp: RtpSession.Session
    const cache: array<Option<Packet>>
    var first: bool
    var rtxSeq: Seq

    predicate Valid()
    {
      cache.Length == CACHE_SIZE
    }

    function View(): Sender
      reads this, rtp, cache
    {
      Sender(first, rtp.View(), cache[..])
    }

    constructor (ps: Params)
      ensures Valid() && fresh(this.rtp) && fresh(this.cache) && this.ps == ps
      ensures View().first && rtxSeq == 0 && forall i :: 0 <= i < CACHE_SIZE ==> cache[i] == None
    {
      this.ps := ps;
      rtp := new RtpSession.Session();
      cache := new Option<Packet>[CACHE_SIZE](_ => None);
      first, rtxSeq := true, 0;
    }

    method StoreRtxPacket(p: Packet)
      requires Valid()
      modifies cache
      ensures cache[..] == if Retransmits(ps) then Stored(old(cache[..]), p) else old(cache[..])
      ensures cache[..] == if ps.useNack && ps.rtxSsrc != 0 && ps.rtxPayloadType != 0
                           then old(cache[..])[p.sn % 1000 := Some(p)]
                           else old(cache[..])
    {
      if !ps.useNack || ps.rtxSsrc == 0 || ps.rtxPayloadType == 0 {
        return;
      }
      cache[Slot(p.sn)] := Some(p);
    }

    method SendRtpPacket(p: Packet) returns (ok: bool)
      requires Valid()
      modifies this`first, rtp, cache
      ensures (View(), ok) == Send(old(View()), ps, p)
    {
      if first {
        first := false;
        rtp.InitSeq(p.sn);
        StoreRtxPacket(p);
        return true;
      }
      ok := rtp.UpdateSeq(p.sn);
      if ok {
        StoreRtxPacket(p);
      }
    }

    /** Retransmits each requested packet that is still cached under its number. */
    method RecvRtcpFbNack(lost: seq<Seq>) returns (sent: seq<Packet>)
      requires Valid()
      modifies cache, this`rtxSeq
      ensures (sent, cache[..], rtxSeq) == Answer(old(cache[..]), ps, old(rtxSeq), lost)
    {
      sent := [];
      assert lost[0..] == lost;
      ghost var all := Answer(cache[..], ps, rtxSeq, lost);
      assert [] + all.0 == all.0;
      for i := 0 to |lost|
        invariant all == var rest := Answer(cache[..], ps, rtxSeq, lost[i..]); (sent + rest.0, rest.1, rest.2)
      {
        assert lost[i..][0] == lost[i] && lost[i..][1..] == lost[i + 1..];
        var c := cache[Slot(lost[i])];
        if c.Some? && c.value.sn == lost[i] {
          if ps.rtxSsrc > 0 && ps.rtxPayloadType > 0 {
            ghost var before := cache[..];
            rtxSeq := (rtxSeq + 1) % SEQ_MOD;
            var wrapped := RtxMux(c.value, ps.rtxPayloadType, ps.rtxSsrc, rtxSeq);
            cache[Slot(lost[i])] := RtxDemux(wrapped, c.value.ssrc, c.value.payloadType);
            DemuxMux(c.value, ps.rtxPayloadType, ps.rtxSsrc, rtxSeq);
            assert cache[..] == Touched(before, lost[i]);
            assert sent + [wrapped] + Answer(cache[..], ps, rtxSeq, lost[i + 1..]).0
                   == sent + ([wrapped] + Answer(cache[..], ps, rtxSeq, lost[i + 1..]).0);
            sent := sent + [wrapped];
          }
        }
      }
      assert lost[|lost|..] == [];
      assert sent + [] == sent;
    }
  }
}
