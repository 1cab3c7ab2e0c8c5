/** The sending end of a node-to-node relay: routes packets and requests to sessions. */
module RtcSendRelay {
  import opened Common
  import opened RtpSession
  import opened RtpPacket
  import opened RtpSendSession

  class Relay {
    var sessions: map<Uint32, RtpSendSession.Session>
    var rtxSessions: map<Uint32, RtpSendSession.Session>

    ghost predicate Valid()
      reads this
    {
      && (forall k :: k in sessions ==> sessions[k].Valid())
      && (forall k :: k in rtxSessions ==> rtxSessions[k].Valid())
    }

    function Route(ssrc: Uint32): Option<RtpSendSession.Session>
      reads this
    {
      if ssrc in sessions then Some(sessions[ssrc])
      else if ssrc in rtxSessions then Some(rtxSessions[ssrc])
      else None
    }

    ghost function Footprint(route: Option<RtpSendSession.Session>): set<object> {
      if route.None? then {} else {route.value, route.value.rtp, route.value.cache}
    }

    constructor ()
      ensures Valid() && sessions == map[] && rtxSessions == map[]
    {
      sessions, rtxSessions := map[], map[];
    }

    /** A stream that is already known keeps its session. */
    method AddPushInfo(ssrc: Uint32, ps: Params)
      requires Valid()
      modifies this
      ensures Valid()
      ensures ssrc in sessions && sessions.Keys == old(sessions.Keys) + {ssrc}
      ensures forall k :: k in old(sessions) ==> sessions[k] == old(sessions)[k]
      ensures rtxSessions.Keys == old(rtxSessions.Keys) + (if ps.rtxSsrc == 0 then {} else {ps.rtxSsrc})
      ensures forall k :: k in old(rtxSessions) ==> rtxSessions[k] == old(rtxSessions)[k]
      ensures ssrc !in old(sessions) ==> sessions[ssrc].ps == ps && sessions[ssrc].View().first
    {
      var s := new RtpSendSession.Session(ps);
      if ssrc !in sessions {
        sessions := sessions[ssrc := s];
      }
      if ps.rtxSsrc != 0 && ps.rtxSsrc !in rtxSessions {
        rtxSessions := rtxSessions[ps.rtxSsrc := s];
      }
    }

    /** What goes out is the packet as it came in, when its session accepts it. */
    method SendRtpPacket(p: Packet) returns (out: Option<Packet>)
      requires Valid()
      modifies Footprint(Route(p.ssrc))
      ensures Route(p.ssrc) == old(Route(p.ssrc))
      ensures Route(p.ssrc).None? ==> out == None
      ensures Route(p.ssrc).Some? ==>
                var s := Route(p.ssrc).value;
                (s.View(), out.Some?) == Send(old(s.View()), s.ps, p) && (out.Some? ==> out == Some(p))
    {
      var route := Route(p.ssrc);
      if route.None? {
        return None;
      }
      var ok := route.value.SendRtpPacket(p);
      out := if ok then Some(p) else None;
    }

    /** Requests only reach sessions by the number of the stream itself. */
    method HandleNack(mediaSsrc: Uint32, lost: seq<Seq>) returns (out: seq<Packet>)
      requires Valid()
      modifies if mediaSsrc in sessions then {sessions[mediaSsrc], sessions[mediaSsrc].cache} else {}
      ensures mediaSsrc !in sessions ==> out == []
      ensures mediaSsrc in sessions ==>
                var s := sessions[mediaSsrc];
                && (out, s.cache[..], s.rtxSeq) == Answer(old(s.cache[..]), s.ps, old(s.rtxSeq), lost)
                && s.first == old(s.first)
    {
      if mediaSsrc !in sessions {
        return [];
      }
      out := sessions[mediaSsrc].RecvRtcpFbNack(lost);
    }
  }
}

/** The receiving end: hands what it accepts to the room. */
module RtcRecvRelay {
  import opened Common
  import opened RtpSession
  import opened RtpPacket
  import opened NackGenerator
  import opened RtpRecvSession
  import Jitter

  /** What becomes of a packet given to a session, as media or as retransmission: the
      session's new state and what the room gets. */
  function Handled(st: RecvState, ps: Params, p: Packet, rtx: bool): (RecvState, Option<Packet>) {
    if !rtx then
      var (st', ok) := ReceiveRtp(st, ps, p.sn);
      (st', if ok && p.payload != [] then Some(p) else None)
    else
      var (st', r) := ReceiveRtx(st, ps, p);
      (st', if r.ok && !r.repeated && r.packet.ssrc != p.ssrc && r.packet.payload != [] then Some(r.packet) else None)
  }

  class Relay {
    var sessions: map<Uint32, RtpRecvSession.Session>
    var rtxSessions: map<Uint32, RtpRecvSession.Session>
    var pushers: map<Uint32, nat>

    /** Every session is that of an announced stream. */
    ghost predicate Valid()
      reads this
    {
      && (forall k :: k in sessions ==> sessions[k].ps.ssrc == k && k in pushers)
      && (forall k :: k in rtxSessions ==> rtxSessions[k].ps.ssrc in pushers)
    }

    function Route(ssrc: Uint32): Option<RtpRecvSession.Session>
      reads this
    {
      if ssrc in sessions then Some(sessions[ssrc])
      else if ssrc in rtxSessions then Some(rtxSessions[ssrc])
      else None
    }

    ghost function Footprint(route: Option<RtpRecvSession.Session>): set<object> {
      if route.None? then {} else {route.value, route.value.rtp, route.value.gen, route.value.jitter}
    }

    constructor ()
      ensures Valid() && sessions == map[] && rtxSessions == map[] && pushers == map[]
    {
      sessions, rtxSessions, pushers := map[], map[], map[];
    }

    method AddVirtualPusher(pusher: nat, ps: Params)
      requires Valid()
      modifies this
      ensures Valid()
      ensures ps.ssrc in sessions && sessions == old(sessions)[ps.ssrc := sessions[ps.ssrc]]
      ensures ps.ssrc in old(sessions) ==> sessions == old(sessions)
      ensures if ps.rtxSsrc == 0 || ps.rtxSsrc in old(rtxSessions) then rtxSessions == old(rtxSessions)
              else ps.rtxSsrc in rtxSessions && rtxSessions == old(rtxSessions)[ps.rtxSsrc := rtxSessions[ps.rtxSsrc]]
      ensures pushers == if ps.ssrc in old(pushers) then old(pushers) else old(pushers)[ps.ssrc := pusher]
      ensures ps.ssrc !in old(sessions) ==> sessions[ps.ssrc].ps == ps && sessions[ps.ssrc].View().first
      ensures ps.ssrc !in old(sessions) && ps.rtxSsrc != 0 && ps.rtxSsrc !in old(rtxSessions) ==>
                rtxSessions[ps.rtxSsrc] == sessions[ps.ssrc]
    {
      if ps.ssrc !in pushers {
        pushers := pushers[ps.ssrc := pusher];
      }
      var s := new RtpRecvSession.Session(ps);
      if ps.ssrc !in sessions {
        sessions := sessions[ps.ssrc := s];
      }
      if ps.rtxSsrc != 0 && ps.rtxSsrc !in rtxSessions {
        rtxSessions := rtxSessions[ps.rtxSsrc := s];
      }
    }

    /** The packet handed to the room, with its pusher. */
    method HandleRtpPacket(p: Packet, at: Jitter.Arrival) returns (out: Option<(nat, Packet)>)
      requires Valid()
      modifies Footprint(Route(p.ssrc))
      ensures Route(p.ssrc) == old(Route(p.ssrc))
      ensures Route(p.ssrc).None? ==> out == None
      ensures Route(p.ssrc).Some? ==>
                var s := Route(p.ssrc).value;
                var (st, q) := Handled(old(s.View()), s.ps, p, p.ssrc !in sessions);
                && s.View() == st && (q.None? <==> out.None?)
                && (q.Some? ==> q.value.ssrc == s.ps.ssrc && out == Some((pushers[s.ps.ssrc], q.value)))
      ensures p.ssrc in sessions ==>
                var s := sessions[p.ssrc];
                && (out.Some? <==>
                      p.payload != [] && (old(s.first) || (Update(old(s.rtp.View()), p.sn).1 && s.ps.clockRate > 0)))
                && (out.Some? ==> out.value.1 == p)
      ensures p.ssrc !in sessions && p.ssrc in rtxSessions ==>
                var s, b := rtxSessions[p.ssrc], p.payload;
                && (out.Some? ==> |b| > 2 && s.ps.ssrc != p.ssrc)
                && (|b| > 2 && s.ps.ssrc != p.ssrc ==>
                      var sn: Seq := 256 * b[0] as int + b[1] as int;
                      && (out.Some? <==>
                            && (s.ps.useNack ==> sn in old(s.gen.losses))
                            && (old(s.first) || (Update(old(s.rtp.View()), sn).1 && s.ps.clockRate > 0)))
                      && (out.Some? ==> out.value.1 == Packet(s.ps.ssrc, s.ps.payloadType, sn, b[2..], 0)))
    {
      var q := p;
      if p.ssrc in sessions {
        var ok := sessions[p.ssrc].ReceiveRtpPacket(p.sn, at);
        if !ok {
          return None;
        }
      } else {
        var repeated := false;
        if p.ssrc in rtxSessions {
          var r := rtxSessions[p.ssrc].ReceiveRtxPacket(p, at);
          if !r.ok {
            return None;
          }
          q, repeated := r.packet, r.repeated;
        }
        if repeated {
          return None;
        }
        if q.ssrc == p.ssrc {
          return None;
        }
      }
      if q.payload == [] {
        return None;
      }
      if q.ssrc !in pushers {
        return None;
      }
      out := Some((pushers[q.ssrc], q));
    }
  }
}
