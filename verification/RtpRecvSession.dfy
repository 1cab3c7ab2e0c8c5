/** The receiving side of a stream. */
module RtpRecvSession {
  import opened Common
  import opened RtpSession
  import opened RtpPacket
  import opened NackGenerator
  import Jitter

  datatype Params = Params(ssrc: Uint32, payloadType: Byte, useNack: bool, rtxSsrc: Uint32, clockRate: nat)

  /** Sequence tracking and losses. */
  datatype RecvState = Recv(first: bool, rtp: State, nacks: NackState)

  /** The number the loss tracking is shown, if any: not the first packet, and none that
      is refused. */
  function Shown(st: RecvState, ps: Params, sn: Seq): Option<Seq> {
    if !st.first && Update(st.rtp, sn).1 && ps.clockRate > 0 && ps.useNack then Some(sn) else None
  }

  /** A packet of the stream itself. */
  function ReceiveRtp(st: RecvState, ps: Params, sn: Seq): (RecvState, bool) {
    if st.first then (Recv(false, Init(sn, st.rtp.discards), st.nacks), true)
    else
      var (rtp, ok) := Update(st.rtp, sn);
      (Recv(false, rtp, if Shown(st, ps, sn).Some? then Seen(st.nacks, sn) else st.nacks), ok && ps.clockRate > 0)
  }

  datatype RtxResult = RtxResult(ok: bool, repeated: bool, packet: Packet)

  /** A retransmission: the packet as unwrapped, and whether it was asked for. */
  function ReceiveRtx(st: RecvState, ps: Params, p: Packet): (RecvState, RtxResult) {
    if p.payload == [] then (st, RtxResult(true, false, p))
    else
      match RtxDemux(p, ps.ssrc, ps.payloadType)
      case None => (st, RtxResult(false, false, p))
      case Some(q) =>
        if ps.useNack && q.sn !in st.nacks.losses then (st, RtxResult(true, true, q))
        else var (st', ok) := ReceiveRtp(st, ps, q.sn); (st', RtxResult(ok, false, q))
  }

  class Session {
    const ps: Params
    const rtp: RtpSession.Session
    const gen: Generator
    const jitter: Jitter.Estimator
    var first: bool

    function View(): RecvState
      reads this, rtp, gen
    {
      Recv(first, rtp.View(), gen.View())
    }

    constructor (ps: Params)
      ensures this.ps == ps && fresh(rtp) && fresh(gen) && fresh(jitter)
      ensures View() == Recv(true, State(0, 0, 0, 0, 0), Nacks(false, 0, map[]))
    {
      this.ps := ps;
      rtp := new RtpSession.Session();
      gen := new Generator();
      jitter := new Jitter.Estimator();
      first := true;
    }

    /** A clock rate of zero makes the jitter step throw, after the number was accepted
        and before the losses are updated; the callers drop the packet as if refused. */
    method ReceiveRtpPacket(sn: Seq, at: Jitter.Arrival) returns (ok: bool)
      modifies this`first, rtp, gen, jitter
      ensures (View(), ok) == ReceiveRtp(old(View()), ps, sn)
      ensures !first && (old(first) ==> ok && rtp.View().max == sn && gen.View() == old(gen.View()))
      ensures !old(first) ==>
                && (rtp.View(), ok) == (var u := Update(old(rtp.View()), sn); (u.0, u.1 && ps.clockRate > 0))
                && gen.View() == if ok && ps.useNack then Seen(old(gen.View()), sn) else old(gen.View())
      ensures gen.rtt == old(gen.rtt)
      ensures jitter.View() ==
              if old(first) || !ok then old(jitter.View())
              else Jitter.Received(old(jitter.View()), ps.clockRate, at)
    {
      if first {
        first := false;
        rtp.InitSeq(sn);
        return true;
      }
      ok := rtp.UpdateSeq(sn);
      if !ok {
        return;
      }
      ok := jitter.GenerateJitter(ps.clockRate, at.ts, at.ms);
      if !ok {
        return;
      }
      jitter.lastMs, jitter.lastTs := at.ms, at.ts;
      if ps.useNack {
        gen.UpdateNackList(sn);
      }
    }

    method ReceiveRtxPacket(p: Packet, at: Jitter.Arrival) returns (r: RtxResult)
      modifies this`first, rtp, gen, jitter
      ensures (View(), r) == ReceiveRtx(old(View()), ps, p)
      ensures |p.payload| < 2 ==> View() == old(View()) && r.ok == (p.payload == []) && !r.repeated && r.packet == p
      ensures |p.payload| >= 2 ==>
                && r.packet.sn == 256 * p.payload[0] as int + p.payload[1] as int && r.packet.payload == p.payload[2..]
                && r.packet.ssrc == ps.ssrc && r.packet.payloadType == ps.payloadType
                && r.repeated == (ps.useNack && r.packet.sn !in old(gen.losses))
                && (r.repeated ==> r.ok && View() == old(View()))
      ensures gen.rtt == old(gen.rtt)
    {
      if p.payload == [] {
        return RtxResult(true, false, p);
      }
      var unwrapped := RtxDemux(p, ps.ssrc, ps.payloadType);
      if unwrapped.None? {
        return RtxResult(false, false, p);
      }
      var q := unwrapped.value;
      if ps.useNack {
        var asked := gen.IsInNackList(q.sn);
        if !asked {
          return RtxResult(true, true, q);
        }
      }
      var ok := ReceiveRtpPacket(q.sn, at);
      r := RtxResult(ok, false, q);
    }
  }
}
