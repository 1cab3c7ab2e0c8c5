/** What single steps of the cluster send: to which sessions the center passes news on, and
    what a node tells the center. */
module ClusterNews {
  import opened Common
  import opened ClusterBase
  import opened Cluster
  import PilotRoom

  /** What session `t` is sent when the center handles a message of session `sid`, the room
      being as `st` says. */
  function News(st: PilotRoom.State, sid: SessionId, m: Up, t: SessionId): seq<Down> {
    match m
    case Join(r, u, audience) =>
      if t == sid then [Joined(r, set v | v in st.users && v != u && !st.users[v].audience)]
      else if t in st.sessions && !audience then [NewUser(r, u)]
      else []
    case Leave(r, u) =>
      if t in st.sessions && u in st.users && st.users[u].session != Some(t) then [UserLeft(r, u)] else []
    case Disconnect(r, u) =>
      if t in st.sessions && u in st.users && st.users[u].session != Some(t) then [UserGone(r, u)] else []
    case Push(r, u) =>
      if t in st.sessions && (u in st.users ==> st.users[u].session != Some(t)) then [NewPusher(r, u)] else []
    case Reconnect(_, _) => []
  }

  lemma {:induction false} SentTo(s: Sys, to: set<SessionId>, m: Down, t: SessionId)
    requires t in s.links
    ensures var s' := SendDown(s, to, m);
            && t in s'.links && s'.links[t] == s.links[t].(down := s.links[t].down + if t in to then [m] else [])
  {
  }

  lemma {:induction false} JoinTells(s: Sys, sid: SessionId, r: RoomId, u: UserId, audience: bool, t: SessionId)
    requires sid in s.links && t in s.links
    ensures var s', m := Handle(s, sid, Join(r, u, audience)), Join(r, u, audience);
            t in s'.links && s'.links[t] == s.links[t].(down := s.links[t].down + News(RoomOf(s, r), sid, m, t))
  {
    var st := PilotRoom.AfterJoin(RoomOf(s, r), u, audience, sid);
    var s1 := SetRoom(s, r, st).(parts := s.parts[sid := PartsOf(s, sid) + {(r, u)}]);
    var s1' := s1.(past := JoinedPast(s1.past, sid, r, u, audience));
    var s2 := if audience then s1' else SendDown(s1', st.sessions - {sid}, NewUser(r, u));
    SentTo(s1', st.sessions - {sid}, NewUser(r, u), t);
    SentTo(s2, {sid}, Joined(r, PilotRoom.Listing(st, u)), t);
    assert PilotRoom.Listing(st, u) == set v | v in RoomOf(s, r).users && v != u && !RoomOf(s, r).users[v].audience;
  }

  /** When the center handles a message, every session gets just that, at the end of its
      queue. */
  lemma {:induction false} HandleTells(s: Sys, sid: SessionId, m: Up, t: SessionId)
    requires sid in s.links && t in s.links
    ensures var s' := Handle(s, sid, m);
            t in s'.links && s'.links[t] == s.links[t].(down := s.links[t].down + News(RoomOf(s, m.room), sid, m, t))
  {
    var st := RoomOf(s, m.room);
    match m {
      case Join(r, u, audience) => JoinTells(s, sid, r, u, audience, t);
      case Leave(r, u) =>
        SentTo(SetRoom(s, r, PilotRoom.AfterLeave(st, u)), PilotRoom.Recipients(st, u), UserLeft(r, u), t);
      case Disconnect(r, u) =>
        SentTo(SetRoom(s, r, PilotRoom.AfterDisconnect(st, u, sid)), PilotRoom.Recipients(st, u), UserGone(r, u), t);
      case Push(r, u) =>
        var st' := PilotRoom.AfterPush(st, u);
        var s1 := SetRoom(s, r, st');
        var s2 := if u in st.users then s1 else s1.(past := s1.past.(pushed := s1.past.pushed + {(r, u)}));
        SentTo(s2, PilotRoom.Recipients(st', u), NewPusher(r, u), t);
      case Reconnect(_, _) =>
    }
  }

  /** What a node tells the center on its own: a user's first join as a join, a further one as
      a reconnect, the loss of its client as a disconnect, its end as a leave; a publisher's or
      the agent's join as a join, whoever has been there. */
  lemma {:induction false} OwnTells(s: Sys, step: Step, t: SessionId)
    requires Wired(s) && Enabled(s, step) && Own(step) && t in s.links
    ensures var us := Users(s, step.n, step.r);
            var m := match step
              case UserJoin(_, r, u, audience) => if u in us then Reconnect(r, u) else Join(r, u, audience)
              case WhipJoin(_, r, u) => Join(r, u, u in us && us[u].audience)
              case AgentJoin(_, r, u) => Join(r, u, false)
              case ClientLost(_, r, u) => Disconnect(r, u)
              case Expire(_, r, u) => Leave(r, u)
              case UserPush(_, r, u) => Push(r, u);
            var s' := Apply(s, step);
            && t in s'.links && s'.links[t].down == s.links[t].down
            && s'.links[t].up == s.links[t].up + if s.nodes[step.n].conn == Some(t) then [m] else []
  {
    var us := Users(s, step.n, step.r);
    LocalFacts(s, step.n, step.r, OwnUsers(us, step), OwnMessage(us, step));
  }
}
