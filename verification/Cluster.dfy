/** The cluster as a step system: nodes, the center, and one link per connection with
    a queue of messages each way.  Upward messages are received in the order sent;
    downward ones in any order, because the center sends each from a task of its own. */
module Cluster {
  import opened Common
  import opened ClusterBase
  import PilotRoom
  import SfuRoom

  /** `open`: the node still uses the link; `served`: the center still reads it. */
  datatype Link = Link(node: NodeId, up: seq<Up>, down: seq<Down>, open: bool, served: bool)

  datatype Node = Node(rooms: map<RoomId, SfuRoom.Users>, conn: Option<SessionId>)

  type Member = (RoomId, UserId)

  /** What has happened, for stating properties of whole runs: the users that a session's
      node missed by ignoring a response that came too late, and of which nothing new has
      been sent since; users that a push made known to the center and no join announced
      since; users that joined at some node; per node the users inserted and announced
      on news from the center, those inserted because they joined there, and those erased;
      and what concerns the clients. */
  datatype History = History(missed: set<(SessionId, RoomId, UserId)>, pushed: set<Member>, joined: set<Member>,
                             announced: multiset<(NodeId, RoomId, UserId)>,
                             entered: multiset<(NodeId, RoomId, UserId)>,
                             erased: multiset<(NodeId, RoomId, UserId)>, heard: Notices)

  /** The users with a client at a node: they joined there as new ones, and have since not
      lost the client, been erased, or been replaced by the agent. The users that the center
      has told a node of, as new users or as pushers, and that the agent has not replaced
      since. And each notification of a new user, with the client that got it first. */
  datatype Notices = Notices(clients: set<(NodeId, RoomId, UserId)>, remotes: set<(NodeId, RoomId, UserId)>,
                         told: multiset<(NodeId, RoomId, UserId, UserId)>)

  datatype Sys = Sys(nodes: map<NodeId, Node>, links: map<SessionId, Link>,
                     rooms: map<RoomId, PilotRoom.State>, parts: map<SessionId, set<Member>>,
                     past: History)

  datatype Step =
    | UserJoin(n: NodeId, r: RoomId, u: UserId, audience: bool)
    | WhipJoin(n: NodeId, r: RoomId, u: UserId)
    | AgentJoin(n: NodeId, r: RoomId, u: UserId)
    | ClientLost(n: NodeId, r: RoomId, u: UserId)
    | Expire(n: NodeId, r: RoomId, u: UserId)
    | UserPush(n: NodeId, r: RoomId, u: UserId)
    | Connect(n: NodeId, sid: SessionId)
    | Drop(n: NodeId, kept: nat)
    | CenterReceive(sid: SessionId)
    | CenterClose(sid: SessionId)
    | Deliver(sid: SessionId, i: nat)
    | IgnoreLate(sid: SessionId, i: nat)

  function Users(s: Sys, n: NodeId, r: RoomId): SfuRoom.Users {
    if n in s.nodes && r in s.nodes[n].rooms then s.nodes[n].rooms[r] else map[]
  }

  function RoomOf(s: Sys, r: RoomId): PilotRoom.State {
    if r in s.rooms then s.rooms[r] else PilotRoom.Empty
  }

  function PartsOf(s: Sys, sid: SessionId): set<Member> {
    if sid in s.parts then s.parts[sid] else {}
  }

  /** The users that a session represents in a room. */
  function Ids(parts: set<Member>, r: RoomId): set<UserId> {
    set m | m in parts && m.0 == r :: m.1
  }

  function SetUsers(s: Sys, n: NodeId, r: RoomId, us: SfuRoom.Users): Sys
    requires n in s.nodes
  {
    s.(nodes := s.nodes[n := s.nodes[n].(rooms := s.nodes[n].rooms[r := us])])
  }

  function SetRoom(s: Sys, r: RoomId, st: PilotRoom.State): Sys {
    s.(rooms := s.rooms[r := st])
  }

  /** Sends over the node's link, or nowhere when the node is not connected. */
  function SendUp(s: Sys, n: NodeId, m: Up): Sys
    requires n in s.nodes
  {
    match s.nodes[n].conn
    case None => s
    case Some(sid) =>
      if sid in s.links then s.(links := s.links[sid := s.links[sid].(up := s.links[sid].up + [m])]) else s
  }

  function SendDown(s: Sys, to: set<SessionId>, m: Down): Sys {
    s.(links := map sid | sid in s.links ::
         if sid in to then s.links[sid].(down := s.links[sid].down + [m]) else s.links[sid])
  }

  function Without<T>(q: seq<T>, i: nat): seq<T>
    requires i < |q|
  {
    q[..i] + q[i + 1..]
  }

  /** A downward message has been taken off its queue. */
  function Taken(s: Sys, sid: SessionId, i: nat): Sys
    requires sid in s.links && i < |s.links[sid].down|
  {
    var l := s.links[sid];
    s.(links := s.links[sid := l.(down := Without(l.down, i))])
  }

  predicate Enabled(s: Sys, step: Step) {
    match step
    case UserJoin(n, _, _, _) => n in s.nodes
    case WhipJoin(n, _, _) => n in s.nodes
    case AgentJoin(n, _, _) => n in s.nodes
    case ClientLost(n, r, u) => u in Users(s, n, r)
    case Expire(n, r, u) => u in Users(s, n, r) && !Users(s, n, r)[u].remote
    case UserPush(n, r, u) => u in Users(s, n, r)
    case Connect(n, sid) => n in s.nodes && s.nodes[n].conn.None? && sid !in s.links
    case Drop(n, kept) =>
      n in s.nodes && s.nodes[n].conn.Some? && s.nodes[n].conn.value in s.links
      && kept <= |s.links[s.nodes[n].conn.value].up|
    case CenterReceive(sid) => sid in s.links && s.links[sid].served && s.links[sid].up != []
    case CenterClose(sid) => sid in s.links && s.links[sid].served
    case Deliver(sid, i) => sid in s.links && s.links[sid].open && i < |s.links[sid].down|
    case IgnoreLate(sid, i) =>
      sid in s.links && s.links[sid].open && i < |s.links[sid].down| && s.links[sid].down[i].Joined?
  }

  /** A join lists everybody anew to its session and announces its user anew to the others,
      unless the user only listens. */
  function JoinedPast(past: History, sid: SessionId, r: RoomId, u: UserId, audience: bool): History {
    past.(missed := (set x | x in past.missed && !(x.1 == r && (x.0 == sid || (!audience && x.2 == u)))),
          pushed := if audience then past.pushed else past.pushed - {(r, u)})
  }

  /** The center handles one message of a session. */
  function Handle(s: Sys, sid: SessionId, m: Up): Sys {
    var st := RoomOf(s, m.room);
    match m
    case Join(r, u, audience) =>
      var st' := PilotRoom.AfterJoin(st, u, audience, sid);
      var s1 := SetRoom(s, r, st').(parts := s.parts[sid := PartsOf(s, sid) + {(r, u)}]);
      var s2 := if audience then s1.(past := JoinedPast(s1.past, sid, r, u, true))
                else SendDown(s1.(past := JoinedPast(s1.past, sid, r, u, false)),
                              st'.sessions - {sid}, NewUser(r, u));
      SendDown(s2, {sid}, Joined(r, PilotRoom.Listing(st', u)))
    case Leave(r, u) =>
      if u !in st.users then s
      else SendDown(SetRoom(s, r, PilotRoom.AfterLeave(st, u)), PilotRoom.Recipients(st, u), UserLeft(r, u))
    case Disconnect(r, u) =>
      if u !in st.users then s
      else SendDown(SetRoom(s, r, PilotRoom.AfterDisconnect(st, u, sid)), PilotRoom.Recipients(st, u), UserGone(r, u))
    case Push(r, u) =>
      var st' := PilotRoom.AfterPush(st, u);
      var s1 := SetRoom(s, r, st');
      var s2 := if u in st.users then s1 else s1.(past := s1.past.(pushed := s1.past.pushed + {(r, u)}));
      SendDown(s2, PilotRoom.Recipients(st', u), NewPusher(r, u))
    case Reconnect(_, _) => s
  }

  /** What a message of the center adds to a node's users of its room. */
  function Absorbed(us: SfuRoom.Users, m: Down): SfuRoom.Users {
    match m
    case Joined(_, listed) => SfuRoom.AfterJoined(us, listed)
    case NewUser(_, u) => SfuRoom.AfterNewUser(us, u)
    case NewPusher(_, u) => SfuRoom.AfterNewPusher(us, u)
    case UserLeft(_, _) => us
    case UserGone(_, _) => us
  }

  /** The users a message of the center makes a node announce to its clients. */
  function Announced(us: SfuRoom.Users, m: Down): set<UserId> {
    match m
    case Joined(_, listed) => set v | v in listed && v !in us
    case NewUser(_, u) => if u in us then {} else {u}
    case _ => {}
  }

  /** The notifications that announcing some users in a room of a node causes. */
  function Notified(n: NodeId, r: RoomId, us: SfuRoom.Users, news: set<UserId>): set<(NodeId, RoomId, UserId, UserId)> {
    set u, v | u in news && v in SfuRoom.Audience(us, u) :: (n, r, v, u)
  }

  /** The users that a message of the center makes known as remote. */
  function Marked(us: SfuRoom.Users, m: Down): set<UserId> {
    if m.NewPusher? && m.user in us then {m.user} else Announced(us, m)
  }

  function ReceivedHeard(h: Notices, n: NodeId, us: SfuRoom.Users, m: Down): Notices {
    h.(remotes := h.remotes + (set v | v in Marked(us, m) :: (n, m.room, v)),
       told := h.told + multiset(Notified(n, m.room, Absorbed(us, m), Announced(us, m))))
  }

  /** A node handles one message of the center. */
  function Receive(s: Sys, n: NodeId, m: Down): Sys
    requires n in s.nodes
  {
    var us := Users(s, n, m.room);
    var past := s.past.(announced := s.past.announced
                          + multiset(set v | v in Announced(us, m) :: (n, m.room, v)),
                        heard := ReceivedHeard(s.past.heard, n, us, m));
    SetUsers(s, n, m.room, Absorbed(us, m)).(past := past)
  }

  /** A step at a node: its users in one room change, and it may send one message. */
  function Local(s: Sys, n: NodeId, r: RoomId, us: SfuRoom.Users, m: Up): Sys
    requires n in s.nodes
  {
    SendUp(SetUsers(s, n, r, us), n, m)
  }

  /** Steps that a node takes on its own. */
  predicate Own(step: Step) {
    step.UserJoin? || step.WhipJoin? || step.AgentJoin? || step.ClientLost? || step.Expire? || step.UserPush?
  }

  function OwnUsers(us: SfuRoom.Users, step: Step): SfuRoom.Users
    requires Own(step)
  {
    match step
    case UserJoin(_, _, u, audience) => SfuRoom.AfterUserJoin(us, u, audience)
    case WhipJoin(_, _, u) => SfuRoom.AfterWhipJoin(us, u)
    case AgentJoin(_, _, u) => SfuRoom.AfterAgentJoin(us, u)
    case ClientLost(_, _, u) => SfuRoom.AfterDisconnect(us, u)
    case Expire(_, _, u) => us - {u}
    case UserPush(_, _, _) => us
  }

  function OwnMessage(us: SfuRoom.Users, step: Step): Up
    requires Own(step)
  {
    match step
    case UserJoin(_, r, u, audience) => if u in us then Reconnect(r, u) else Join(r, u, audience)
    case WhipJoin(_, r, u) => Join(r, u, SfuRoom.AfterWhipJoin(us, u)[u].audience)
    case AgentJoin(_, r, u) => Join(r, u, false)
    case ClientLost(_, r, u) => Disconnect(r, u)
    case Expire(_, r, u) => Leave(r, u)
    case UserPush(_, r, u) => Push(r, u)
  }

  /** The user that a node announces on its own. */
  function OwnNews(us: SfuRoom.Users, step: Step): set<UserId>
    requires Own(step)
  {
    match step
    case UserJoin(_, _, u, audience) => if u in us || audience then {} else {u}
    case WhipJoin(_, _, u) => {u}
    case AgentJoin(_, _, u) => {u}
    case _ => {}
  }

  function OwnHeard(h: Notices, us: SfuRoom.Users, step: Step): Notices
    requires Own(step)
  {
    var at := (step.n, step.r, step.u);
    Notices(if step.UserJoin? && step.u !in us then h.clients + {at}
          else if step.ClientLost? || step.Expire? || step.AgentJoin? then h.clients - {at}
          else h.clients,
          if step.AgentJoin? then h.remotes - {at} else h.remotes,
          h.told + multiset(Notified(step.n, step.r, OwnUsers(us, step), OwnNews(us, step))))
  }

  function OwnPast(past: History, us: SfuRoom.Users, step: Step): History
    requires Own(step)
  {
    var past' := past.(heard := OwnHeard(past.heard, us, step));
    match step
    case Expire(n, r, u) => past'.(erased := past.erased + multiset{(n, r, u)})
    case ClientLost(_, _, _) => past'
    case UserPush(_, _, _) => past'
    case _ =>
      past'.(joined := past.joined + {(step.r, step.u)},
             entered := past.entered + if step.u in us then multiset{} else multiset{(step.n, step.r, step.u)})
  }

  function AfterConnect(s: Sys, n: NodeId, sid: SessionId): Sys
    requires n in s.nodes
  {
    s.(nodes := s.nodes[n := s.nodes[n].(conn := Some(sid))],
       links := s.links[sid := Link(n, [], [], true, true)])
  }

  /** The node gives its link up; of what it sent, a prefix still reaches the center. */
  function AfterDrop(s: Sys, n: NodeId, kept: nat): Sys
    requires Enabled(s, Drop(n, kept))
  {
    var sid := s.nodes[n].conn.value;
    s.(nodes := s.nodes[n := s.nodes[n].(conn := None)],
       links := s.links[sid := s.links[sid].(up := s.links[sid].up[..kept], open := false)])
  }

  function AfterCenterClose(s: Sys, sid: SessionId): Sys
    requires sid in s.links
  {
    s.(links := s.links[sid := s.links[sid].(served := false)],
       rooms := map r | r in s.rooms :: PilotRoom.AfterClose(s.rooms[r], Ids(PartsOf(s, sid), r), sid))
  }

  /** The oldest upward message has been taken off its queue. */
  function Popped(s: Sys, sid: SessionId): Sys
    requires sid in s.links && s.links[sid].up != []
  {
    s.(links := s.links[sid := s.links[sid].(up := s.links[sid].up[1..])])
  }

  /** The users that a session's node misses by ignoring a message. */
  function Lost(sid: SessionId, m: Down): set<(SessionId, RoomId, UserId)> {
    if m.Joined? then set v | v in m.users :: (sid, m.room, v) else {}
  }

  function Apply(s: Sys, step: Step): Sys
    requires Enabled(s, step) && (forall sid :: sid in s.links ==> s.links[sid].node in s.nodes)
  {
    match step
    case Connect(n, sid) => AfterConnect(s, n, sid)
    case Drop(n, kept) => AfterDrop(s, n, kept)
    case CenterReceive(sid) => Handle(Popped(s, sid), sid, s.links[sid].up[0])
    case CenterClose(sid) => AfterCenterClose(s, sid)
    case Deliver(sid, i) => Receive(Taken(s, sid, i), s.links[sid].node, s.links[sid].down[i])
    case IgnoreLate(sid, i) =>
      var s1 := Taken(s, sid, i);
      s1.(past := s1.past.(missed := s1.past.missed + Lost(sid, s.links[sid].down[i])))
    case _ =>
      var us := Users(s, step.n, step.r);
      Local(s, step.n, step.r, OwnUsers(us, step), OwnMessage(us, step)).(past := OwnPast(s.past, us, step))
  }

  /** Nodes that know nobody and are not connected; a center without rooms. */
  predicate Initial(s: Sys) {
    && (forall n :: n in s.nodes ==> s.nodes[n] == Node(map[], None))
    && s.links == map[] && s.rooms == map[] && s.parts == map[]
    && s.past == History({}, {}, {}, multiset{}, multiset{}, multiset{}, Notices({}, {}, multiset{}))
  }

  // ----- the invariant

  /** `u` is at the node of `sid`, or a message that will bring it there is on its way,
      or the node has itself dropped `u` and the center is yet to hear of it. */
  ghost predicate Informed(s: Sys, sid: SessionId, r: RoomId, u: UserId)
    requires sid in s.links
  {
    var l := s.links[sid];
    || u in Users(s, l.node, r)
    || NewUser(r, u) in l.down
    || (exists us :: Joined(r, us) in l.down && u in us)
    || Leave(r, u) in l.up
  }

  /** The center owes news of `u` to the node of `sid`: the session is registered in the
      room and alive, and `u` takes part there. */
  ghost predicate Owed(s: Sys, sid: SessionId, r: RoomId, u: UserId) {
    && sid in s.links && s.links[sid].open && sid in RoomOf(s, r).sessions
    && u in RoomOf(s, r).users && !RoomOf(s, r).users[u].audience
    && (sid, r, u) !in s.past.missed && (r, u) !in s.past.pushed
  }

  ghost predicate Membership(s: Sys) {
    forall sid, r, u :: Owed(s, sid, r, u) ==> Informed(s, sid, r, u)
  }

  /** A join in flight is about a user its node still has, or has dropped since. */
  ghost predicate Backed(s: Sys, sid: SessionId, i: nat)
    requires sid in s.links && i < |s.links[sid].up|
  {
    var l := s.links[sid];
    l.up[i].Join? ==> l.up[i].user in Users(s, l.node, l.up[i].room)
                      || Leave(l.up[i].room, l.up[i].user) in l.up[i + 1..]
  }

  ghost predicate Joins(s: Sys) {
    forall sid, i :: sid in s.links && s.links[sid].open && 0 <= i < |s.links[sid].up| ==> Backed(s, sid, i)
  }

  /** Each open link is the one its node uses, and each node uses an open link of its own. */
  ghost predicate Wired(s: Sys) {
    && (forall sid :: sid in s.links ==> s.links[sid].node in s.nodes)
    && (forall sid :: sid in s.links && s.links[sid].open ==> s.nodes[s.links[sid].node].conn == Some(sid))
    && (forall n :: n in s.nodes && s.nodes[n].conn.Some? ==>
          var sid := s.nodes[n].conn.value; sid in s.links && s.links[sid].open && s.links[sid].node == n)
  }

  /** A registered session is alive and represents somebody in the room. */
  ghost predicate Registered(s: Sys) {
    forall r, sid :: sid in RoomOf(s, r).sessions ==>
      sid in s.links && s.links[sid].served && Ids(PartsOf(s, sid), r) != {}
  }

  /** A user's session represents that user and is registered in the room. */
  ghost predicate Bound(s: Sys) {
    forall r, u :: u in RoomOf(s, r).users && RoomOf(s, r).users[u].session.Some? ==>
      var sid := RoomOf(s, r).users[u].session.value;
      (r, u) in PartsOf(s, sid) && sid in RoomOf(s, r).sessions
  }

  /** Session consistency at the center. */
  ghost predicate Consistent(s: Sys) {
    Registered(s) && Bound(s)
  }

  ghost predicate Inv(s: Sys) {
    Wired(s) && Consistent(s) && Joins(s) && Membership(s)
  }

  // ----- every step keeps it

  /** The center's rooms and sessions are as before. */
  ghost predicate SameCenter(s: Sys, s': Sys) {
    && s'.rooms == s.rooms && s'.parts == s.parts && s'.links.Keys == s.links.Keys
    && (forall sid :: sid in s.links ==> s'.links[sid].served == s.links[sid].served)
  }

  /** Nodes and links hang together as before. */
  ghost predicate SameWiring(s: Sys, s': Sys) {
    && s'.nodes.Keys == s.nodes.Keys && s'.links.Keys == s.links.Keys
    && (forall n :: n in s.nodes ==> s'.nodes[n].conn == s.nodes[n].conn)
    && (forall sid :: sid in s.links ==>
          s'.links[sid].node == s.links[sid].node && s'.links[sid].open == s.links[sid].open)
  }

  lemma {:induction false} ConsistentFrame(s: Sys, s': Sys)
    requires Consistent(s) && SameCenter(s, s')
    ensures Consistent(s')
  {
    assert forall r :: RoomOf(s', r) == RoomOf(s, r);
    assert forall sid :: PartsOf(s', sid) == PartsOf(s, sid);
  }

  lemma {:induction false} WiredFrame(s: Sys, s': Sys)
    requires Wired(s) && SameWiring(s, s')
    ensures Wired(s')
  {
  }

  /** Messages from nodes that are still open are as before, or gone, and no node lost a user. */
  lemma {:induction false} JoinsFrame(s: Sys, s': Sys)
    requires Joins(s)
    requires forall t :: t in s'.links && s'.links[t].open && s'.links[t].up != [] ==>
               t in s.links && s.links[t].open && s'.links[t].node == s.links[t].node && s'.links[t].up == s.links[t].up
    requires forall n, r, u :: u in Users(s, n, r) ==> u in Users(s', n, r)
    ensures Joins(s')
  {
    forall t, i | t in s'.links && s'.links[t].open && 0 <= i < |s'.links[t].up|
      ensures Backed(s', t, i)
    {
      assert Backed(s, t, i);
    }
  }

  lemma {:induction false} SetUsersFacts(s: Sys, n: NodeId, r: RoomId, us: SfuRoom.Users)
    requires Wired(s) && n in s.nodes
    ensures var s' := SetUsers(s, n, r, us);
            && SameCenter(s, s') && SameWiring(s, s') && Wired(s')
            && (forall n', r' :: Users(s', n', r') == if n' == n && r' == r then us else Users(s, n', r'))
  {
    var s' := SetUsers(s, n, r, us);
    assert n in s.nodes.Keys;
    assert s'.nodes.Keys == s.nodes.Keys;
    WiredFrame(s, s');
  }

  lemma {:induction false} SendUpFacts(s: Sys, n: NodeId, m: Up)
    requires Wired(s) && n in s.nodes
    ensures var s' := SendUp(s, n, m);
            && SameCenter(s, s') && SameWiring(s, s') && s'.nodes == s.nodes && s'.past == s.past
            && (forall sid :: sid in s.links ==>
                  var l := s.links[sid];
                  s'.links[sid] == if s.nodes[n].conn == Some(sid) then l.(up := l.up + [m]) else l)
  {
    match s.nodes[n].conn
    case None =>
    case Some(sid) => assert sid in s.links.Keys;
  }

  /** What a local step changes and what it leaves alone. */
  lemma {:induction false} LocalFacts(s: Sys, n: NodeId, r: RoomId, us: SfuRoom.Users, m: Up)
    requires Wired(s) && n in s.nodes
    ensures var s' := Local(s, n, r, us, m);
            && SameCenter(s, s') && SameWiring(s, s') && s'.past == s.past
            && (forall n', r' :: Users(s', n', r') == if n' == n && r' == r then us else Users(s, n', r'))
            && (forall sid :: sid in s.links ==>
                  var l := s.links[sid];
                  s'.links[sid] == if s.nodes[n].conn == Some(sid) then l.(up := l.up + [m]) else l)
  {
    SetUsersFacts(s, n, r, us);
    SendUpFacts(SetUsers(s, n, r, us), n, m);
  }

  lemma {:induction false} LocalKeepsBacked(s: Sys, n: NodeId, r: RoomId, us: SfuRoom.Users, m: Up,
                                            sid: SessionId, i: nat)
    requires Wired(s) && Joins(s) && n in s.nodes
    requires forall u :: u in Users(s, n, r) && u !in us ==> m == Leave(r, u)
    requires m.Join? ==> m.room == r && m.user in us
    requires var s' := Local(s, n, r, us, m); sid in s'.links && s'.links[sid].open && i < |s'.links[sid].up|
    ensures Backed(Local(s, n, r, us, m), sid, i)
  {
    var s' := Local(s, n, r, us, m);
    LocalFacts(s, n, r, us, m);
    if i < |s.links[sid].up| {
      assert Backed(s, sid, i);
      var rest, rest' := s.links[sid].up[i + 1..], s'.links[sid].up[i + 1..];
      assert rest' == rest || rest' == rest + [m];
    }
  }

  lemma {:induction false} LocalKeepsJoins(s: Sys, n: NodeId, r: RoomId, us: SfuRoom.Users, m: Up)
    requires Wired(s) && Joins(s) && n in s.nodes
    requires forall u :: u in Users(s, n, r) && u !in us ==> m == Leave(r, u)
    requires m.Join? ==> m.room == r && m.user in us
    ensures Joins(Local(s, n, r, us, m))
  {
    var s' := Local(s, n, r, us, m);
    forall sid, i | sid in s'.links && s'.links[sid].open && 0 <= i < |s'.links[sid].up|
      ensures Backed(s', sid, i)
    {
      LocalKeepsBacked(s, n, r, us, m, sid, i);
    }
  }

  lemma {:induction false} LocalKeepsMembership(s: Sys, n: NodeId, r: RoomId, us: SfuRoom.Users, m: Up)
    requires Wired(s) && Membership(s) && n in s.nodes
    requires forall u :: u in Users(s, n, r) && u !in us ==> m == Leave(r, u)
    ensures Membership(Local(s, n, r, us, m))
  {
    var s' := Local(s, n, r, us, m);
    LocalFacts(s, n, r, us, m);
    forall sid, r', u | Owed(s', sid, r', u)
      ensures Informed(s', sid, r', u)
    {
      assert RoomOf(s', r') == RoomOf(s, r');
      assert Owed(s, sid, r', u);
      assert Informed(s, sid, r', u);
    }
  }

  lemma {:induction false} LocalKeeps(s: Sys, n: NodeId, r: RoomId, us: SfuRoom.Users, m: Up)
    requires Inv(s) && n in s.nodes
    requires forall u :: u in Users(s, n, r) && u !in us ==> m == Leave(r, u)
    requires m.Join? ==> m.room == r && m.user in us
    ensures Inv(Local(s, n, r, us, m))
  {
    LocalFacts(s, n, r, us, m);
    LocalKeepsJoins(s, n, r, us, m);
    LocalKeepsMembership(s, n, r, us, m);
    ConsistentFrame(s, Local(s, n, r, us, m));
    WiredFrame(s, Local(s, n, r, us, m));
  }

  /** Only the history changes, and not what obligations depend on. */
  lemma {:induction false} PastKeeps(s: Sys, past: History)
    requires Inv(s) && past.missed == s.past.missed && past.pushed == s.past.pushed
    ensures Inv(s.(past := past))
  {
    var s' := s.(past := past);
    ConsistentFrame(s, s');
    WiredFrame(s, s');
    forall sid, r, u | Owed(s', sid, r, u)
      ensures Informed(s', sid, r, u)
    {
      assert RoomOf(s', r) == RoomOf(s, r);
      assert Owed(s, sid, r, u) && Informed(s, sid, r, u);
    }
    JoinsFrame(s, s');
  }

  // ----- steps at the center

  /** The center has only sent messages down, and changed its own state. */
  ghost predicate DownGrows(s: Sys, s': Sys) {
    && s'.nodes == s.nodes && s'.links.Keys == s.links.Keys
    && (forall sid :: sid in s.links ==>
          var l, l' := s.links[sid], s'.links[sid];
          && l'.node == l.node && l'.open == l.open && l'.served == l.served && l'.up == l.up
          && l.down <= l'.down)
  }

  lemma {:induction false} DownGrowsKeeps(s: Sys, s': Sys)
    requires Wired(s) && Joins(s) && DownGrows(s, s')
    ensures Wired(s') && Joins(s')
  {
    WiredFrame(s, s');
    JoinsFrame(s, s');
  }

  lemma {:induction false} StaysInformed(s: Sys, s': Sys, sid: SessionId, r: RoomId, u: UserId)
    requires DownGrows(s, s') && sid in s.links && Informed(s, sid, r, u)
    ensures Informed(s', sid, r, u)
  {
    assert forall m :: m in s.links[sid].down ==> m in s'.links[sid].down;
  }

  lemma {:induction false} SendDownFacts(s: Sys, to: set<SessionId>, m: Down)
    ensures var s' := SendDown(s, to, m);
            && DownGrows(s, s') && s'.rooms == s.rooms && s'.parts == s.parts && s'.past == s.past
            && (forall sid :: sid in s.links && sid in to ==> m in s'.links[sid].down)
  {
    var s' := SendDown(s, to, m);
    assert forall sid :: sid in s.links && sid in to ==>
      var d := s'.links[sid].down; d[|d| - 1] == m;
  }

  /** All that is owed is on its way, except what the center still has to send `sid` about
      `u` because it is just handling the message of `sid` that says `u` left. */
  ghost predicate MembershipBut(s: Sys, sid: SessionId, m: Up) {
    forall t, r, u :: Owed(s, t, r, u) && !(m == Leave(r, u) && t == sid) ==> Informed(s, t, r, u)
  }

  lemma {:induction false} PoppedKeepsJoins(s: Sys, sid: SessionId)
    requires Joins(s) && sid in s.links && s.links[sid].up != []
    ensures Joins(Popped(s, sid))
  {
    var s', up := Popped(s, sid), s.links[sid].up;
    forall t, i | t in s'.links && s'.links[t].open && 0 <= i < |s'.links[t].up|
      ensures Backed(s', t, i)
    {
      if t == sid {
        assert Backed(s, t, i + 1);
        assert up[1..][i + 1..] == up[i + 2..];
      } else {
        assert Backed(s, t, i);
      }
    }
  }

  lemma {:induction false} PoppedKeepsMembership(s: Sys, sid: SessionId)
    requires Membership(s) && sid in s.links && s.links[sid].up != []
    ensures MembershipBut(Popped(s, sid), sid, s.links[sid].up[0])
  {
    var s', m := Popped(s, sid), s.links[sid].up[0];
    forall t, r, u | Owed(s', t, r, u) && !(m == Leave(r, u) && t == sid)
      ensures Informed(s', t, r, u)
    {
      assert RoomOf(s', r) == RoomOf(s, r);
      assert Owed(s, t, r, u) && Informed(s, t, r, u);
    }
  }

  lemma {:induction false} PoppedKeeps(s: Sys, sid: SessionId)
    requires Inv(s) && sid in s.links && s.links[sid].up != []
    ensures var s', m := Popped(s, sid), s.links[sid].up[0];
            && SameCenter(s, s') && Wired(s') && Consistent(s') && Joins(s') && MembershipBut(s', sid, m)
            && (m.Join? && s'.links[sid].open ==> Informed(s', sid, m.room, m.user))
  {
    var s', up := Popped(s, sid), s.links[sid].up;
    assert s'.links.Keys == s.links.Keys;
    ConsistentFrame(s, s');
    WiredFrame(s, s');
    PoppedKeepsJoins(s, sid);
    PoppedKeepsMembership(s, sid);
    if up[0].Join? && s'.links[sid].open {
      assert Backed(s, sid, 0);
    }
  }

  lemma {:induction false} HandleJoinFacts(s: Sys, sid: SessionId, r: RoomId, u: UserId, audience: bool)
    requires sid in s.links
    ensures var s', st := Handle(s, sid, Join(r, u, audience)), PilotRoom.AfterJoin(RoomOf(s, r), u, audience, sid);
            && DownGrows(s, s') && s'.rooms == s.rooms[r := st]
            && s'.parts == s.parts[sid := PartsOf(s, sid) + {(r, u)}]
            && s'.past == JoinedPast(s.past, sid, r, u, audience)
            && Joined(r, PilotRoom.Listing(st, u)) in s'.links[sid].down
            && (!audience ==> forall t :: t in s.links && t in st.sessions && t != sid ==> NewUser(r, u) in s'.links[t].down)
  {
    var st := PilotRoom.AfterJoin(RoomOf(s, r), u, audience, sid);
    var s1 := SetRoom(s, r, st).(parts := s.parts[sid := PartsOf(s, sid) + {(r, u)}]);
    var s1' := s1.(past := JoinedPast(s1.past, sid, r, u, audience));
    var s2 := if audience then s1' else SendDown(s1', st.sessions - {sid}, NewUser(r, u));
    SendDownFacts(s1', st.sessions - {sid}, NewUser(r, u));
    SendDownFacts(s2, {sid}, Joined(r, PilotRoom.Listing(st, u)));
  }

  lemma {:induction false} HandleJoinKeeps(s: Sys, sid: SessionId, r: RoomId, u: UserId, audience: bool)
    requires var m := Join(r, u, audience);
             && Wired(s) && Joins(s) && sid in s.links && MembershipBut(s, sid, m)
             && (s.links[sid].open ==> Informed(s, sid, r, u))
    ensures Membership(Handle(s, sid, Join(r, u, audience)))
  {
    var m := Join(r, u, audience);
    var s' := Handle(s, sid, m);
    HandleJoinFacts(s, sid, r, u, audience);
    var st := PilotRoom.AfterJoin(RoomOf(s, r), u, audience, sid);
    forall t, r', v | Owed(s', t, r', v)
      ensures Informed(s', t, r', v)
    {
      assert RoomOf(s', r') == if r' == r then st else RoomOf(s, r');
      if r' == r && t == sid && v != u {
        assert v in PilotRoom.Listing(st, u);
      } else if r' == r && v == u {
        if t == sid { StaysInformed(s, s', t, r, u); }
      } else {
        assert Owed(s, t, r', v);
        StaysInformed(s, s', t, r', v);
      }
    }
  }

  lemma {:induction false} JoinedRegistered(s: Sys, s': Sys, sid: SessionId, r: RoomId, u: UserId)
    requires Registered(s) && sid in s.links && s.links[sid].served && DownGrows(s, s')
    requires s'.rooms.Keys == s.rooms.Keys + {r} && RoomOf(s', r).sessions == RoomOf(s, r).sessions + {sid}
    requires forall r' :: r' != r ==> RoomOf(s', r') == RoomOf(s, r')
    requires s'.parts == s.parts[sid := PartsOf(s, sid) + {(r, u)}]
    ensures Registered(s')
  {
    forall r', t | t in RoomOf(s', r').sessions
      ensures t in s'.links && s'.links[t].served && Ids(PartsOf(s', t), r') != {}
    {
      if r' == r && t == sid {
        assert (r, u) in PartsOf(s', sid) && u in Ids(PartsOf(s', sid), r);
      } else {
        assert t in RoomOf(s, r').sessions && Ids(PartsOf(s, t), r') != {};
        var v :| v in Ids(PartsOf(s, t), r');
        assert (r', v) in PartsOf(s', t) && v in Ids(PartsOf(s', t), r');
      }
    }
  }

  lemma {:induction false} JoinedBound(s: Sys, s': Sys, sid: SessionId, r: RoomId, u: UserId)
    requires Bound(s)
    requires RoomOf(s', r).sessions == RoomOf(s, r).sessions + {sid}
    requires u in RoomOf(s', r).users && RoomOf(s', r).users[u].session == Some(sid)
    requires forall v :: v != u && v in RoomOf(s', r).users ==>
               v in RoomOf(s, r).users && RoomOf(s', r).users[v] == RoomOf(s, r).users[v]
    requires forall r' :: r' != r ==> RoomOf(s', r') == RoomOf(s, r')
    requires s'.parts == s.parts[sid := PartsOf(s, sid) + {(r, u)}]
    ensures Bound(s')
  {
    forall r', v | v in RoomOf(s', r').users && RoomOf(s', r').users[v].session.Some?
      ensures var t := RoomOf(s', r').users[v].session.value; (r', v) in PartsOf(s', t) && t in RoomOf(s', r').sessions
    {
      if !(r' == r && v == u) {
        assert v in RoomOf(s, r').users && RoomOf(s', r').users[v] == RoomOf(s, r').users[v];
      }
    }
  }

  lemma {:induction false} QuietConsistent(s: Sys, s': Sys, r: RoomId, st: PilotRoom.State)
    requires Consistent(s) && DownGrows(s, s') && s'.rooms == s.rooms[r := st] && s'.parts == s.parts
    requires st.sessions == RoomOf(s, r).sessions
    requires forall v :: v in st.users && st.users[v].session.Some? ==>
               v in RoomOf(s, r).users && RoomOf(s, r).users[v].session == st.users[v].session
    ensures Consistent(s')
  {
    assert forall r' :: RoomOf(s', r') == if r' == r then st else RoomOf(s, r');
    assert forall t :: PartsOf(s', t) == PartsOf(s, t);
  }

  /** The center changes one room so that nobody new is owed anything there, and tells
      some sessions. */
  lemma {:induction false} QuietKeeps(s: Sys, sid: SessionId, m: Up, s': Sys, r: RoomId, st: PilotRoom.State)
    requires Wired(s) && Joins(s) && Consistent(s) && MembershipBut(s, sid, m)
    requires DownGrows(s, s') && s'.rooms == s.rooms[r := st] && s'.parts == s.parts
    requires s'.past.missed == s.past.missed && s'.past.pushed >= s.past.pushed
    requires st.sessions == RoomOf(s, r).sessions
    requires forall v :: v in st.users && !st.users[v].audience && (r, v) !in s'.past.pushed ==>
               v in RoomOf(s, r).users && !RoomOf(s, r).users[v].audience
    requires forall v :: v in st.users && st.users[v].session.Some? ==>
               v in RoomOf(s, r).users && RoomOf(s, r).users[v].session == st.users[v].session
    requires m.Leave? ==> m.room == r && m.user !in st.users
    ensures Inv(s')
  {
    DownGrowsKeeps(s, s');
    forall t, r', v | Owed(s', t, r', v)
      ensures Informed(s', t, r', v)
    {
      assert RoomOf(s', r') == if r' == r then st else RoomOf(s, r');
      assert Owed(s, t, r', v);
      StaysInformed(s, s', t, r', v);
    }
    QuietConsistent(s, s', r, st);
  }

  lemma {:induction false} JoinConsistent(s: Sys, sid: SessionId, m: Up)
    requires m.Join? && Consistent(s) && sid in s.links && s.links[sid].served
    ensures Consistent(Handle(s, sid, m))
  {
    var s' := Handle(s, sid, m);
    HandleJoinFacts(s, sid, m.room, m.user, m.audience);
    JoinedRegistered(s, s', sid, m.room, m.user);
    JoinedBound(s, s', sid, m.room, m.user);
  }

  lemma {:induction false} JoinKeeps(s: Sys, sid: SessionId, m: Up)
    requires m.Join?
    requires Wired(s) && Joins(s) && Consistent(s) && sid in s.links && s.links[sid].served && MembershipBut(s, sid, m)
    requires s.links[sid].open ==> Informed(s, sid, m.room, m.user)
    ensures Inv(Handle(s, sid, m))
  {
    HandleJoinFacts(s, sid, m.room, m.user, m.audience);
    HandleJoinKeeps(s, sid, m.room, m.user, m.audience);
    JoinConsistent(s, sid, m);
    DownGrowsKeeps(s, Handle(s, sid, m));
  }

  lemma {:induction false} LeaveKeeps(s: Sys, sid: SessionId, m: Up)
    requires m.Leave?
    requires Wired(s) && Joins(s) && Consistent(s) && sid in s.links && MembershipBut(s, sid, m)
    ensures Inv(Handle(s, sid, m))
  {
    var s', st := Handle(s, sid, m), RoomOf(s, m.room);
    if m.user in st.users {
      SendDownFacts(SetRoom(s, m.room, PilotRoom.AfterLeave(st, m.user)), PilotRoom.Recipients(st, m.user),
                    UserLeft(m.room, m.user));
      QuietKeeps(s, sid, m, s', m.room, PilotRoom.AfterLeave(st, m.user));
    }
  }

  lemma {:induction false} DisconnectKeeps(s: Sys, sid: SessionId, m: Up)
    requires m.Disconnect?
    requires Wired(s) && Joins(s) && Consistent(s) && sid in s.links && MembershipBut(s, sid, m)
    ensures Inv(Handle(s, sid, m))
  {
    var s', st := Handle(s, sid, m), RoomOf(s, m.room);
    if m.user in st.users {
      var st' := PilotRoom.AfterDisconnect(st, m.user, sid);
      SendDownFacts(SetRoom(s, m.room, st'), PilotRoom.Recipients(st, m.user), UserGone(m.room, m.user));
      QuietKeeps(s, sid, m, s', m.room, st');
    }
  }

  lemma {:induction false} PushKeeps(s: Sys, sid: SessionId, m: Up)
    requires m.Push?
    requires Wired(s) && Joins(s) && Consistent(s) && sid in s.links && MembershipBut(s, sid, m)
    ensures Inv(Handle(s, sid, m))
  {
    var s', st := Handle(s, sid, m), RoomOf(s, m.room);
    var st' := PilotRoom.AfterPush(st, m.user);
    var s1 := SetRoom(s, m.room, st');
    var s2 := if m.user in st.users then s1
              else s1.(past := s1.past.(pushed := s1.past.pushed + {(m.room, m.user)}));
    SendDownFacts(s2, PilotRoom.Recipients(st', m.user), NewPusher(m.room, m.user));
    QuietKeeps(s, sid, m, s', m.room, st');
  }

  lemma {:induction false} HandleKeeps(s: Sys, sid: SessionId, m: Up)
    requires Wired(s) && Joins(s) && Consistent(s) && sid in s.links && s.links[sid].served && MembershipBut(s, sid, m)
    requires m.Join? && s.links[sid].open ==> Informed(s, sid, m.room, m.user)
    ensures Inv(Handle(s, sid, m))
  {
    match m
    case Join(_, _, _) => JoinKeeps(s, sid, m);
    case Leave(_, _) => LeaveKeeps(s, sid, m);
    case Disconnect(_, _) => DisconnectKeeps(s, sid, m);
    case Push(_, _) => PushKeeps(s, sid, m);
    case Reconnect(_, _) =>
  }

  /** The session is gone from every room, and with it the users it alone carried. */
  lemma {:induction false} CloseKeepsConsistent(s: Sys, sid: SessionId)
    requires Consistent(s) && sid in s.links && s.links[sid].served
    ensures Consistent(AfterCenterClose(s, sid))
  {
    var s' := AfterCenterClose(s, sid);
    assert s'.links.Keys == s.links.Keys;
    forall r, t | t in RoomOf(s', r).sessions
      ensures t in s'.links && s'.links[t].served && Ids(PartsOf(s', t), r) != {}
    {
      assert t in RoomOf(s, r).sessions;
    }
  }

  lemma {:induction false} CloseKeeps(s: Sys, sid: SessionId)
    requires Inv(s) && sid in s.links && s.links[sid].served
    ensures Inv(AfterCenterClose(s, sid))
  {
    var s' := AfterCenterClose(s, sid);
    assert s'.links.Keys == s.links.Keys;
    CloseKeepsConsistent(s, sid);
    WiredFrame(s, s');
    forall t, r, u | Owed(s', t, r, u)
      ensures Informed(s', t, r, u)
    {
      assert Owed(s, t, r, u) && Informed(s, t, r, u);
    }
    JoinsFrame(s, s');
  }

  // ----- steps of the links

  lemma {:induction false} ConnectKeepsMembership(s: Sys, n: NodeId, sid: SessionId)
    requires Inv(s) && n in s.nodes && s.nodes[n].conn.None? && sid !in s.links
    ensures Membership(AfterConnect(s, n, sid))
  {
    var s' := AfterConnect(s, n, sid);
    forall t, r, u | Owed(s', t, r, u)
      ensures Informed(s', t, r, u)
    {
      assert RoomOf(s', r) == RoomOf(s, r) && t != sid;
      assert Owed(s, t, r, u) && Informed(s, t, r, u);
      assert Users(s', s.links[t].node, r) == Users(s, s.links[t].node, r);
    }
  }

  lemma {:induction false} ConnectKeeps(s: Sys, n: NodeId, sid: SessionId)
    requires Inv(s) && n in s.nodes && s.nodes[n].conn.None? && sid !in s.links
    ensures Inv(AfterConnect(s, n, sid))
  {
    var s' := AfterConnect(s, n, sid);
    assert forall r :: RoomOf(s', r) == RoomOf(s, r);
    assert forall t :: PartsOf(s', t) == PartsOf(s, t);
    assert forall n', r :: Users(s', n', r) == Users(s, n', r);
    ConnectKeepsMembership(s, n, sid);
    JoinsFrame(s, s');
  }

  lemma {:induction false} DropKeeps(s: Sys, n: NodeId, kept: nat)
    requires Inv(s) && Enabled(s, Drop(n, kept))
    ensures Inv(AfterDrop(s, n, kept))
  {
    var s', sid := AfterDrop(s, n, kept), s.nodes[n].conn.value;
    assert s'.links.Keys == s.links.Keys && s'.nodes.Keys == s.nodes.Keys;
    ConsistentFrame(s, s');
    assert forall n', r :: Users(s', n', r) == Users(s, n', r);
    forall t, r, u | Owed(s', t, r, u)
      ensures Informed(s', t, r, u)
    {
      assert RoomOf(s', r) == RoomOf(s, r);
      assert Owed(s, t, r, u) && Informed(s, t, r, u);
    }
    JoinsFrame(s, s');
  }

  /** A downward message is taken off its queue and the users of the node may grow. */
  lemma {:induction false} TakenKeeps(s: Sys, sid: SessionId, i: nat, s': Sys)
    requires Inv(s) && sid in s.links && s.links[sid].open && i < |s.links[sid].down|
    requires SameCenter(s, s') && SameWiring(s, s') && s'.past.pushed == s.past.pushed
    requires s.past.missed <= s'.past.missed
    requires forall t :: t in s.links ==> s'.links[t].up == s.links[t].up
    requires forall t :: t in s.links && t != sid ==> s'.links[t].down == s.links[t].down
    requires s'.links[sid].down == Without(s.links[sid].down, i)
    requires forall n, r, u :: u in Users(s, n, r) ==> u in Users(s', n, r)
    requires var m := s.links[sid].down[i];
             && (m.NewUser? ==> m.user in Users(s', s.links[sid].node, m.room))
             && (m.Joined? ==> forall v :: v in m.users ==>
                   v in Users(s', s.links[sid].node, m.room) || (sid, m.room, v) in s'.past.missed)
    ensures Inv(s')
  {
    ConsistentFrame(s, s');
    WiredFrame(s, s');
    var m, d := s.links[sid].down[i], s.links[sid].down;
    assert forall x :: x in d ==> x == m || x in Without(d, i);
    forall t, r, u | Owed(s', t, r, u)
      ensures Informed(s', t, r, u)
    {
      assert RoomOf(s', r) == RoomOf(s, r);
      assert Owed(s, t, r, u) && Informed(s, t, r, u);
    }
    JoinsFrame(s, s');
  }

  lemma {:induction false} TakenFacts(s: Sys, sid: SessionId, i: nat)
    requires Inv(s) && sid in s.links && i < |s.links[sid].down|
    ensures var s' := Taken(s, sid, i);
            && SameCenter(s, s') && SameWiring(s, s') && Wired(s')
            && (forall n, r :: Users(s', n, r) == Users(s, n, r))
            && (forall t :: t in s.links ==> s'.links[t].up == s.links[t].up)
            && (forall t :: t in s.links && t != sid ==> s'.links[t].down == s.links[t].down)
            && s'.links[sid].down == Without(s.links[sid].down, i)
  {
    var s' := Taken(s, sid, i);
    assert s'.links.Keys == s.links.Keys;
    WiredFrame(s, s');
  }

  lemma {:induction false} GrownFacts(s: Sys, sid: SessionId, i: nat, r: RoomId, us: SfuRoom.Users)
    requires Inv(s) && sid in s.links && i < |s.links[sid].down|
    ensures var n := s.links[sid].node;
            var s' := SetUsers(Taken(s, sid, i), n, r, us);
            && SameCenter(s, s') && SameWiring(s, s') && s'.past == s.past
            && (forall n', r' :: Users(s', n', r') == if n' == n && r' == r then us else Users(s, n', r'))
            && s'.links == Taken(s, sid, i).links
  {
    TakenFacts(s, sid, i);
    SetUsersFacts(Taken(s, sid, i), s.links[sid].node, r, us);
  }

  /** The node takes in a message that may add users to one room. */
  lemma {:induction false} GrownKeeps(s: Sys, sid: SessionId, i: nat, us: SfuRoom.Users)
    requires Inv(s) && Enabled(s, Deliver(sid, i))
    requires var m, n := s.links[sid].down[i], s.links[sid].node;
             && Users(s, n, m.room).Keys <= us.Keys
             && (m.NewUser? ==> m.user in us) && (m.Joined? ==> m.users <= us.Keys)
    ensures Inv(SetUsers(Taken(s, sid, i), s.links[sid].node, s.links[sid].down[i].room, us))
  {
    var m, n := s.links[sid].down[i], s.links[sid].node;
    GrownFacts(s, sid, i, m.room, us);
    TakenKeeps(s, sid, i, SetUsers(Taken(s, sid, i), n, m.room, us));
  }

  lemma {:induction false} DeliverKeeps(s: Sys, sid: SessionId, i: nat)
    requires Inv(s) && Enabled(s, Deliver(sid, i))
    ensures Inv(Apply(s, Deliver(sid, i)))
  {
    var m, n := s.links[sid].down[i], s.links[sid].node;
    var us := Absorbed(Users(s, n, m.room), m);
    TakenFacts(s, sid, i);
    GrownKeeps(s, sid, i, us);
    PastKeeps(SetUsers(Taken(s, sid, i), n, m.room, us), Apply(s, Deliver(sid, i)).past);
  }

  lemma {:induction false} LateKeeps(s: Sys, sid: SessionId, i: nat)
    requires Inv(s) && Enabled(s, IgnoreLate(sid, i))
    ensures Inv(Apply(s, IgnoreLate(sid, i)))
  {
    TakenFacts(s, sid, i);
    var s' := Apply(s, IgnoreLate(sid, i));
    assert forall n, r :: Users(s', n, r) == Users(Taken(s, sid, i), n, r);
    TakenKeeps(s, sid, i, s');
  }

  lemma {:induction false} ReceiveKeeps(s: Sys, sid: SessionId)
    requires Inv(s) && Enabled(s, CenterReceive(sid))
    ensures Inv(Apply(s, CenterReceive(sid)))
  {
    PoppedKeeps(s, sid);
    HandleKeeps(Popped(s, sid), sid, s.links[sid].up[0]);
  }

  lemma {:induction false} OwnFits(us: SfuRoom.Users, step: Step, past: History)
    requires Own(step)
    ensures var us', m, past' := OwnUsers(us, step), OwnMessage(us, step), OwnPast(past, us, step);
            && (forall u :: u in us && u !in us' ==> m == Leave(step.r, u))
            && (m.Join? ==> m.room == step.r && m.user in us')
            && past'.missed == past.missed && past'.pushed == past.pushed
  {
  }

  lemma {:induction false} OwnKeeps(s: Sys, step: Step)
    requires Inv(s) && Enabled(s, step) && Own(step)
    ensures Inv(Apply(s, step))
  {
    var us := Users(s, step.n, step.r);
    OwnFits(us, step, s.past);
    LocalFacts(s, step.n, step.r, OwnUsers(us, step), OwnMessage(us, step));
    LocalKeeps(s, step.n, step.r, OwnUsers(us, step), OwnMessage(us, step));
    PastKeeps(Local(s, step.n, step.r, OwnUsers(us, step), OwnMessage(us, step)), OwnPast(s.past, us, step));
  }

  lemma {:induction false} StepKeeps(s: Sys, step: Step)
    requires Inv(s) && Enabled(s, step)
    ensures Inv(Apply(s, step))
  {
    match step
    case Connect(n, sid) => ConnectKeeps(s, n, sid);
    case Drop(n, kept) => DropKeeps(s, n, kept);
    case CenterReceive(sid) => ReceiveKeeps(s, sid);
    case CenterClose(sid) => CloseKeeps(s, sid);
    case Deliver(sid, i) => DeliverKeeps(s, sid, i);
    case IgnoreLate(sid, i) => LateKeeps(s, sid, i);
    case _ => OwnKeeps(s, step);
  }

  // ----- whole runs

  ghost predicate Runs(s: Sys, steps: seq<Step>)
    decreases |steps|
  {
    steps != [] ==>
      && Wired(s) && Enabled(s, steps[0])
      && Runs(Apply(s, steps[0]), steps[1..])
  }

  ghost function Exec(s: Sys, steps: seq<Step>): Sys
    requires Runs(s, steps)
    decreases |steps|
  {
    if steps == [] then s else Exec(Apply(s, steps[0]), steps[1..])
  }

  lemma {:induction false} InitialInv(s: Sys)
    requires Initial(s)
    ensures Inv(s)
  {
  }

  lemma {:induction false} RunKeeps(s: Sys, steps: seq<Step>)
    requires Inv(s) && Runs(s, steps)
    ensures Inv(Exec(s, steps))
    decreases |steps|
  {
    if steps != [] {
      StepKeeps(s, steps[0]);
      RunKeeps(Apply(s, steps[0]), steps[1..]);
    }
  }

  /** In every state of every run: a node whose session is registered in a room and has
      dropped no late response knows each user that takes part there and was announced,
      or the news is on its way, or the node has itself just erased that user. */
  lemma {:induction false} NewsReachesEveryNode(s0: Sys, steps: seq<Step>, sid: SessionId, r: RoomId, u: UserId)
    requires Initial(s0) && Runs(s0, steps)
    requires Owed(Exec(s0, steps), sid, r, u)
    ensures Informed(Exec(s0, steps), sid, r, u)
  {
    InitialInv(s0);
    RunKeeps(s0, steps);
  }

  /** So once a link is quiet its node knows all of them. */
  lemma {:induction false} QuietNodeKnowsEveryone(s0: Sys, steps: seq<Step>, sid: SessionId, r: RoomId, u: UserId)
    requires Initial(s0) && Runs(s0, steps)
    requires var s := Exec(s0, steps); Owed(s, sid, r, u) && s.links[sid].up == [] && s.links[sid].down == []
    ensures var s := Exec(s0, steps); u in Users(s, s.links[sid].node, r)
  {
    NewsReachesEveryNode(s0, steps, sid, r, u);
  }

  /** When the center closes a session, nothing in any room refers to it any more, the
      users bound to it are gone, and users bound to another session are untouched. */
  lemma {:induction false} CloseForgets(s: Sys, sid: SessionId, r: RoomId, u: UserId)
    requires Consistent(s) && sid in s.links
    ensures var st, st' := RoomOf(s, r), RoomOf(AfterCenterClose(s, sid), r);
            && sid !in st'.sessions
            && (u in st'.users ==> st'.users[u].session != Some(sid))
            && (u in st.users && st.users[u].session.Some? && st.users[u].session != Some(sid) ==>
                  u in st'.users && st'.users[u] == st.users[u])
            && (forall t :: t != sid ==> (t in st'.sessions <==> t in st.sessions))
  {
    assert sid in RoomOf(s, r).sessions ==> Ids(PartsOf(s, sid), r) != {};
    if u in RoomOf(s, r).users && RoomOf(s, r).users[u].session == Some(sid) {
      assert (r, u) in PartsOf(s, sid);
      assert u in Ids(PartsOf(s, sid), r);
    }
  }

  // ----- conservation

  ghost predicate CountedAt(s: Sys, n: NodeId, r: RoomId, u: UserId) {
    s.past.announced[(n, r, u)] + s.past.entered[(n, r, u)]
    == s.past.erased[(n, r, u)] + if u in Users(s, n, r) then 1 else 0
  }

  /** Announcements and own joins of a user at a node match its erasures there and its
      present entry. */
  ghost predicate Counted(s: Sys) {
    forall n, r, u :: CountedAt(s, n, r, u)
  }

  lemma {:induction false} DownKeepsCounted(s: Sys, s': Sys)
    requires Counted(s) && s'.nodes == s.nodes
    requires s'.past.announced == s.past.announced && s'.past.entered == s.past.entered && s'.past.erased == s.past.erased
    ensures Counted(s')
  {
    forall n, r, u
      ensures CountedAt(s', n, r, u)
    {
      assert CountedAt(s, n, r, u) && Users(s', n, r) == Users(s, n, r);
    }
  }

  /** The connection of a node is not part of the count. */
  lemma {:induction false} ConnKeepsCounted(s: Sys, n: NodeId, conn: Option<SessionId>, links: map<SessionId, Link>)
    requires Counted(s) && n in s.nodes
    ensures Counted(s.(nodes := s.nodes[n := s.nodes[n].(conn := conn)], links := links))
  {
    var s' := s.(nodes := s.nodes[n := s.nodes[n].(conn := conn)], links := links);
    forall n', r, u
      ensures CountedAt(s', n', r, u)
    {
      assert CountedAt(s, n', r, u) && Users(s', n', r) == Users(s, n', r);
    }
  }

  lemma {:induction false} OwnKeepsCounted(s: Sys, step: Step)
    requires Wired(s) && Counted(s) && Enabled(s, step) && Own(step)
    ensures Counted(Apply(s, step))
  {
    var us, s' := Users(s, step.n, step.r), Apply(s, step);
    LocalFacts(s, step.n, step.r, OwnUsers(us, step), OwnMessage(us, step));
    var s1 := Local(s, step.n, step.r, OwnUsers(us, step), OwnMessage(us, step));
    forall n, r, u
      ensures CountedAt(s', n, r, u)
    {
      assert CountedAt(s, n, r, u) && Users(s', n, r) == Users(s1, n, r);
    }
  }

  lemma {:induction false} ReceiveKeepsCounted(s: Sys, n: NodeId, m: Down)
    requires Wired(s) && Counted(s) && n in s.nodes
    ensures Counted(Receive(s, n, m))
  {
    var us, s' := Users(s, n, m.room), Receive(s, n, m);
    SetUsersFacts(s, n, m.room, Absorbed(us, m));
    var s1 := SetUsers(s, n, m.room, Absorbed(us, m));
    forall n', r, u
      ensures CountedAt(s', n', r, u)
    {
      assert CountedAt(s, n', r, u) && Users(s', n', r) == Users(s1, n', r);
      var more := set v | v in Announced(us, m) :: (n, m.room, v);
      assert (n', r, u) in more <==> n' == n && r == m.room && u in Announced(us, m);
    }
  }

  lemma {:induction false} DeliverKeepsCounted(s: Sys, sid: SessionId, i: nat)
    requires Inv(s) && Counted(s) && sid in s.links && i < |s.links[sid].down|
    ensures Counted(Receive(Taken(s, sid, i), s.links[sid].node, s.links[sid].down[i]))
  {
    TakenFacts(s, sid, i);
    DownKeepsCounted(s, Taken(s, sid, i));
    ReceiveKeepsCounted(Taken(s, sid, i), s.links[sid].node, s.links[sid].down[i]);
  }

  lemma {:induction false} HandlePast(s: Sys, sid: SessionId, m: Up)
    ensures var s' := Handle(s, sid, m);
            s'.nodes == s.nodes && s'.past.announced == s.past.announced && s'.past.entered == s.past.entered
            && s'.past.erased == s.past.erased && s'.past.joined == s.past.joined && s'.past.heard == s.past.heard
  {
  }

  lemma {:induction false} StepKeepsCounted(s: Sys, step: Step)
    requires Inv(s) && Counted(s) && Enabled(s, step)
    ensures Counted(Apply(s, step))
  {
    match step {
      case Connect(n, sid) => ConnKeepsCounted(s, n, Some(sid), AfterConnect(s, n, sid).links);
      case Drop(n, kept) => ConnKeepsCounted(s, n, None, AfterDrop(s, n, kept).links);
      case CenterReceive(sid) =>
        HandlePast(Popped(s, sid), sid, s.links[sid].up[0]);
        DownKeepsCounted(s, Apply(s, step));
      case CenterClose(sid) => DownKeepsCounted(s, AfterCenterClose(s, sid));
      case Deliver(sid, i) => DeliverKeepsCounted(s, sid, i);
      case IgnoreLate(sid, i) => DownKeepsCounted(s, Apply(s, step));
      case _ => OwnKeepsCounted(s, step);
    }
  }

  lemma {:induction false} RunKeepsCounted(s: Sys, steps: seq<Step>)
    requires Inv(s) && Counted(s) && Runs(s, steps)
    ensures Counted(Exec(s, steps))
    decreases |steps|
  {
    if steps != [] {
      StepKeeps(s, steps[0]);
      StepKeepsCounted(s, steps[0]);
      RunKeepsCounted(Apply(s, steps[0]), steps[1..]);
    }
  }

  /** Over any run from the start: how often a node has announced a user on news from the
      center and inserted it because it joined there, is how often it has erased the user,
      and once more if it has the user now. */
  lemma {:induction false} AnnouncedOnce(s0: Sys, steps: seq<Step>, n: NodeId, r: RoomId, u: UserId)
    requires Initial(s0) && Runs(s0, steps)
    ensures CountedAt(Exec(s0, steps), n, r, u)
  {
    InitialInv(s0);
    assert forall n', r' :: Users(s0, n', r') == map[];
    RunKeepsCounted(s0, steps);
  }

  /** So after any run news of a user is announced exactly when every earlier insertion of the
      user at the node has been followed by its erasure. */
  lemma {:induction false} AnnouncedIff(s0: Sys, steps: seq<Step>, sid: SessionId, i: nat)
    requires Initial(s0) && Runs(s0, steps)
    requires var s := Exec(s0, steps); Wired(s) && Enabled(s, Deliver(sid, i)) && s.links[sid].down[i].NewUser?
    ensures var s := Exec(s0, steps);
            var NewUser(r, u) := s.links[sid].down[i];
            var at := (s.links[sid].node, r, u);
            Apply(s, Deliver(sid, i)).past.announced[at]
            == s.past.announced[at]
               + if s.past.announced[at] + s.past.entered[at] == s.past.erased[at] then 1 else 0
  {
    var s := Exec(s0, steps);
    var NewUser(r, u) := s.links[sid].down[i];
    AnnouncedOnce(s0, steps, s.links[sid].node, r, u);
    assert Users(Taken(s, sid, i), s.links[sid].node, r) == Users(s, s.links[sid].node, r);
  }

  lemma {:induction false} AbsorbedKeeps(us: SfuRoom.Users, m: Down, u: UserId)
    requires u in us
    ensures u in Absorbed(us, m) && u !in Announced(us, m) && (!us[u].online ==> !Absorbed(us, m)[u].online)
  {
  }

  lemma {:induction false} ReceiveKeepsKnown(s: Sys, at: NodeId, m: Down, n: NodeId, r: RoomId, u: UserId)
    requires Wired(s) && at in s.nodes && u in Users(s, n, r)
    ensures var s' := Receive(s, at, m);
            u in Users(s', n, r) && s'.past.announced[(n, r, u)] == s.past.announced[(n, r, u)]
            && (!Users(s, n, r)[u].online ==> !Users(s', n, r)[u].online)
  {
    var us := Users(s, at, m.room);
    var more, s1 := set v | v in Announced(us, m) :: (at, m.room, v), SetUsers(s, at, m.room, Absorbed(us, m));
    SetUsersFacts(s, at, m.room, Absorbed(us, m));
    assert Users(Receive(s, at, m), n, r) == Users(s1, n, r);
    if n == at && r == m.room {
      AbsorbedKeeps(us, m, u);
    }
    assert (n, r, u) !in more;
  }

  lemma {:induction false} DeliverKeepsKnown(s: Sys, sid: SessionId, i: nat, n: NodeId, r: RoomId, u: UserId)
    requires Inv(s) && Enabled(s, Deliver(sid, i)) && u in Users(s, n, r)
    ensures var s' := Apply(s, Deliver(sid, i));
            u in Users(s', n, r) && s'.past.announced[(n, r, u)] == s.past.announced[(n, r, u)]
            && (!Users(s, n, r)[u].online ==> !Users(s', n, r)[u].online)
  {
    TakenFacts(s, sid, i);
    ReceiveKeepsKnown(Taken(s, sid, i), s.links[sid].node, s.links[sid].down[i], n, r, u);
  }

  lemma {:induction false} OwnKeepsKnown(s: Sys, step: Step, n: NodeId, r: RoomId, u: UserId)
    requires Inv(s) && Enabled(s, step) && Own(step) && u in Users(s, n, r) && step != Expire(n, r, u)
    ensures var s' := Apply(s, step);
            u in Users(s', n, r) && s'.past.announced[(n, r, u)] == s.past.announced[(n, r, u)]
            && (!Users(s, n, r)[u].online ==> !Users(s', n, r)[u].online)
  {
    var us := Users(s, step.n, step.r);
    var s1 := Local(s, step.n, step.r, OwnUsers(us, step), OwnMessage(us, step));
    LocalFacts(s, step.n, step.r, OwnUsers(us, step), OwnMessage(us, step));
    assert Users(Apply(s, step), n, r) == Users(s1, n, r);
  }

  /** A node never gives a user up on news from the center. */
  lemma {:induction false} StepKeepsKnown(s: Sys, step: Step, n: NodeId, r: RoomId, u: UserId)
    requires Inv(s) && Enabled(s, step) && u in Users(s, n, r) && step != Expire(n, r, u)
    ensures var s' := Apply(s, step);
            u in Users(s', n, r) && s'.past.announced[(n, r, u)] == s.past.announced[(n, r, u)]
            && (!Users(s, n, r)[u].online ==> !Users(s', n, r)[u].online)
  {
    match step {
      case Connect(_, _) =>
      case Drop(_, _) =>
      case CenterReceive(sid) => HandlePast(Popped(s, sid), sid, s.links[sid].up[0]);
      case CenterClose(_) =>
      case Deliver(sid, i) => DeliverKeepsKnown(s, sid, i, n, r, u);
      case IgnoreLate(sid, i) => TakenFacts(s, sid, i);
      case _ => OwnKeepsKnown(s, step, n, r, u);
    }
  }

  /** So a user that a node has is not announced there again, however often it leaves and
      joins elsewhere, until the node's own timer erases it; and a client that lost its
      connection is not notified of anything again, however often it reconnects. */
  lemma {:induction false} RejoinIsSilent(s: Sys, steps: seq<Step>, n: NodeId, r: RoomId, u: UserId)
    requires Inv(s) && Runs(s, steps) && u in Users(s, n, r) && Expire(n, r, u) !in steps
    ensures var s' := Exec(s, steps);
            u in Users(s', n, r) && s'.past.announced[(n, r, u)] == s.past.announced[(n, r, u)]
            && (!Users(s, n, r)[u].online ==> !Users(s', n, r)[u].online)
    decreases |steps|
  {
    if steps != [] {
      assert steps[0] in steps;
      StepKeeps(s, steps[0]);
      StepKeepsKnown(s, steps[0], n, r, u);
      RejoinIsSilent(Apply(s, steps[0]), steps[1..], n, r, u);
    }
  }

  // ----- nobody is invented

  ghost predicate UpKnown(s: Sys, m: Up) {
    m.Join? || m.Push? ==> (m.room, m.user) in s.past.joined
  }

  ghost predicate DownKnown(s: Sys, m: Down) {
    && (m.NewUser? ==> (m.room, m.user) in s.past.joined)
    && (m.Joined? ==> forall u :: u in m.users ==> (m.room, u) in s.past.joined)
  }

  /** Every user that a node, the center or a message has in a room joined there somewhere. */
  ghost predicate Genuine(s: Sys) {
    && (forall n, r, u :: u in Users(s, n, r) ==> (r, u) in s.past.joined)
    && (forall r, u :: u in RoomOf(s, r).users ==> (r, u) in s.past.joined)
    && (forall sid, m :: sid in s.links && m in s.links[sid].up ==> UpKnown(s, m))
    && (forall sid, m :: sid in s.links && m in s.links[sid].down ==> DownKnown(s, m))
  }

  /** From `s` to `s'` users and messages are new only where they are known to have joined. */
  ghost predicate AddsKnown(s: Sys, s': Sys) {
    && s.past.joined <= s'.past.joined
    && (forall n, r, u :: u in Users(s', n, r) ==> u in Users(s, n, r) || (r, u) in s'.past.joined)
    && (forall r, u :: u in RoomOf(s', r).users ==> u in RoomOf(s, r).users || (r, u) in s'.past.joined)
    && (forall sid, m :: sid in s'.links && m in s'.links[sid].up ==>
          (sid in s.links && m in s.links[sid].up) || UpKnown(s', m))
    && (forall sid, m :: sid in s'.links && m in s'.links[sid].down ==>
          (sid in s.links && m in s.links[sid].down) || DownKnown(s', m))
  }

  lemma {:induction false} AddsKnownKeepsGenuine(s: Sys, s': Sys)
    requires Genuine(s) && AddsKnown(s, s')
    ensures Genuine(s')
  {
    forall sid, x | sid in s'.links && x in s'.links[sid].up
      ensures UpKnown(s', x)
    {
      if sid in s.links && x in s.links[sid].up { assert UpKnown(s, x); }
    }
    forall sid, x | sid in s'.links && x in s'.links[sid].down
      ensures DownKnown(s', x)
    {
      if sid in s.links && x in s.links[sid].down { assert DownKnown(s, x); }
    }
  }

  lemma {:induction false} OwnAddsUser(us: SfuRoom.Users, step: Step, past: History)
    requires Own(step) && (step.UserPush? ==> (step.r, step.u) in past.joined)
    ensures forall u :: u in OwnUsers(us, step) ==> u in us || (step.r, u) in OwnPast(past, us, step).joined
    ensures past.joined <= OwnPast(past, us, step).joined
    ensures var m := OwnMessage(us, step); m.Join? || m.Push? ==> (m.room, m.user) in OwnPast(past, us, step).joined
  {
  }

  lemma {:induction false} LocalAddsKnown(s: Sys, n: NodeId, r: RoomId, us: SfuRoom.Users, m: Up, past: History)
    requires Wired(s) && n in s.nodes && s.past.joined <= past.joined
    requires forall u :: u in us ==> u in Users(s, n, r) || (r, u) in past.joined
    requires m.Join? || m.Push? ==> (m.room, m.user) in past.joined
    ensures AddsKnown(s, Local(s, n, r, us, m).(past := past))
  {
    var s1 := Local(s, n, r, us, m);
    var s' := s1.(past := past);
    LocalFacts(s, n, r, us, m);
    assert UpKnown(s', m);
    assert forall n', r' :: Users(s', n', r') == Users(s1, n', r');
  }

  lemma {:induction false} OwnAddsKnown(s: Sys, step: Step)
    requires Wired(s) && Enabled(s, step) && Own(step)
    requires step.UserPush? ==> (step.r, step.u) in s.past.joined
    ensures AddsKnown(s, Apply(s, step))
  {
    var us := Users(s, step.n, step.r);
    OwnAddsUser(us, step, s.past);
    LocalAddsKnown(s, step.n, step.r, OwnUsers(us, step), OwnMessage(us, step), OwnPast(s.past, us, step));
  }

  /** Handling a message adds at most its own user, and only when it is a join or a push. */
  lemma {:induction false} HandleAddsUser(s: Sys, sid: SessionId, m: Up)
    requires sid in s.links
    ensures var s' := Handle(s, sid, m);
            && (forall r, u :: u in RoomOf(s', r).users ==>
                  u in RoomOf(s, r).users || ((m.Join? || m.Push?) && r == m.room && u == m.user))
  {
  }

  lemma {:induction false} HandleKeepsUp(s: Sys, sid: SessionId, m: Up)
    requires sid in s.links
    ensures var s' := Handle(s, sid, m);
            forall t :: t in s'.links ==> t in s.links && s'.links[t].up == s.links[t].up
  {
  }

  lemma {:induction false} SentDown(s: Sys, to: set<SessionId>, m: Down, t: SessionId, x: Down)
    requires t in s.links && x in SendDown(s, to, m).links[t].down
    ensures x in s.links[t].down || x == m
  {
  }

  /** And the only news of users it sends is of its own user, and the listing. */
  lemma {:induction false} HandleAddsNews(s: Sys, sid: SessionId, m: Up, t: SessionId, x: Down)
    requires sid in s.links && t in s.links && (x.NewUser? || x.Joined?)
    requires x in Handle(s, sid, m).links[t].down
    ensures || x in s.links[t].down
            || (m.Join? && x == NewUser(m.room, m.user))
            || (m.Join? && x.Joined? && x.room == m.room && x.users <= RoomOf(s, m.room).users.Keys)
  {
    var st := RoomOf(s, m.room);
    match m {
      case Join(r, u, audience) =>
        var st' := PilotRoom.AfterJoin(st, u, audience, sid);
        var s1 := SetRoom(s, r, st').(parts := s.parts[sid := PartsOf(s, sid) + {(r, u)}]);
        var s1' := s1.(past := JoinedPast(s1.past, sid, r, u, audience));
        var s2 := if audience then s1' else SendDown(s1', st'.sessions - {sid}, NewUser(r, u));
        SentDown(s2, {sid}, Joined(r, PilotRoom.Listing(st', u)), t, x);
        if !audience && x in s2.links[t].down {
          SentDown(s1', st'.sessions - {sid}, NewUser(r, u), t, x);
        }
        assert PilotRoom.Listing(st', u) <= st.users.Keys;
      case Leave(r, u) =>
        if u in st.users {
          SentDown(SetRoom(s, r, PilotRoom.AfterLeave(st, u)), PilotRoom.Recipients(st, u), UserLeft(r, u), t, x);
        }
      case Disconnect(r, u) =>
        if u in st.users {
          SentDown(SetRoom(s, r, PilotRoom.AfterDisconnect(st, u, sid)), PilotRoom.Recipients(st, u), UserGone(r, u), t, x);
        }
      case Push(_, _) =>
      case Reconnect(_, _) =>
    }
  }

  lemma {:induction false} HandleAddsKnown(s: Sys, sid: SessionId, m: Up)
    requires sid in s.links && UpKnown(s, m)
    requires forall u :: u in RoomOf(s, m.room).users ==> (m.room, u) in s.past.joined
    ensures AddsKnown(s, Handle(s, sid, m))
  {
    var s' := Handle(s, sid, m);
    HandleAddsUser(s, sid, m);
    HandleKeepsUp(s, sid, m);
    HandlePast(s, sid, m);
    assert forall n, r :: Users(s', n, r) == Users(s, n, r);
    forall t, x | t in s'.links && x in s'.links[t].down
      ensures x in s.links[t].down || DownKnown(s', x)
    {
      if x.NewUser? || x.Joined? { HandleAddsNews(s, sid, m, t, x); }
    }
  }

  lemma {:induction false} ReceiveAddsKnown(s: Sys, n: NodeId, m: Down)
    requires Wired(s) && n in s.nodes && DownKnown(s, m)
    ensures AddsKnown(s, Receive(s, n, m))
  {
    var us := Absorbed(Users(s, n, m.room), m);
    var s', s1 := Receive(s, n, m), SetUsers(s, n, m.room, us);
    SetUsersFacts(s, n, m.room, us);
    assert forall n', r :: Users(s', n', r) == Users(s1, n', r);
    assert forall r :: RoomOf(s', r) == RoomOf(s, r);
  }

  lemma {:induction false} PoppedAddsNothing(s: Sys, sid: SessionId)
    requires sid in s.links && s.links[sid].up != []
    ensures AddsKnown(s, Popped(s, sid))
  {
    assert forall n, r :: Users(Popped(s, sid), n, r) == Users(s, n, r);
  }

  lemma {:induction false} ReceiveKeepsGenuine(s: Sys, sid: SessionId)
    requires Genuine(s) && sid in s.links && s.links[sid].up != []
    ensures Genuine(Handle(Popped(s, sid), sid, s.links[sid].up[0]))
  {
    var m := s.links[sid].up[0];
    assert UpKnown(s, m);
    PoppedAddsNothing(s, sid);
    AddsKnownKeepsGenuine(s, Popped(s, sid));
    HandleAddsKnown(Popped(s, sid), sid, m);
    AddsKnownKeepsGenuine(Popped(s, sid), Handle(Popped(s, sid), sid, m));
  }

  lemma {:induction false} TakenAddsNothing(s: Sys, sid: SessionId, i: nat)
    requires sid in s.links && i < |s.links[sid].down|
    ensures AddsKnown(s, Taken(s, sid, i))
    ensures Enabled(s, IgnoreLate(sid, i)) ==>
              var s' := Taken(s, sid, i);
              AddsKnown(s, s'.(past := s'.past.(missed := s'.past.missed + Lost(sid, s.links[sid].down[i]))))
  {
    assert forall n, r :: Users(Taken(s, sid, i), n, r) == Users(s, n, r);
    assert forall x :: x in Without(s.links[sid].down, i) ==> x in s.links[sid].down;
    var s' := Taken(s, sid, i);
    var s2 := s'.(past := s'.past.(missed := s'.past.missed + Lost(sid, s.links[sid].down[i])));
    assert forall n, r :: Users(s2, n, r) == Users(s, n, r);
  }

  lemma {:induction false} DeliverKeepsGenuine(s: Sys, sid: SessionId, i: nat)
    requires Inv(s) && Genuine(s) && sid in s.links && i < |s.links[sid].down|
    ensures Genuine(Receive(Taken(s, sid, i), s.links[sid].node, s.links[sid].down[i]))
  {
    var m, n, s1 := s.links[sid].down[i], s.links[sid].node, Taken(s, sid, i);
    assert DownKnown(s, m);
    TakenFacts(s, sid, i);
    TakenAddsNothing(s, sid, i);
    AddsKnownKeepsGenuine(s, s1);
    ReceiveAddsKnown(s1, n, m);
    AddsKnownKeepsGenuine(s1, Receive(s1, n, m));
  }

  lemma {:induction false} ConnectAddsNothing(s: Sys, n: NodeId, sid: SessionId)
    requires n in s.nodes && sid !in s.links
    ensures AddsKnown(s, AfterConnect(s, n, sid))
  {
    assert forall n', r :: Users(AfterConnect(s, n, sid), n', r) == Users(s, n', r);
  }

  lemma {:induction false} DropAddsNothing(s: Sys, n: NodeId, kept: nat)
    requires Enabled(s, Drop(n, kept))
    ensures AddsKnown(s, AfterDrop(s, n, kept))
  {
    assert forall n', r :: Users(AfterDrop(s, n, kept), n', r) == Users(s, n', r);
  }

  lemma {:induction false} CloseAddsNothing(s: Sys, sid: SessionId)
    requires sid in s.links
    ensures AddsKnown(s, AfterCenterClose(s, sid))
  {
    assert forall n, r :: Users(AfterCenterClose(s, sid), n, r) == Users(s, n, r);
  }

  lemma {:induction false} StepAddsKnown(s: Sys, step: Step)
    requires Inv(s) && Genuine(s) && Enabled(s, step) && !step.CenterReceive? && !step.Deliver?
    ensures AddsKnown(s, Apply(s, step))
  {
    match step {
      case Connect(n, sid) => ConnectAddsNothing(s, n, sid);
      case Drop(n, kept) => DropAddsNothing(s, n, kept);
      case CenterClose(sid) => CloseAddsNothing(s, sid);
      case IgnoreLate(sid, i) => TakenAddsNothing(s, sid, i);
      case _ => OwnAddsKnown(s, step);
    }
  }

  lemma {:induction false} StepKeepsGenuine(s: Sys, step: Step)
    requires Inv(s) && Genuine(s) && Enabled(s, step)
    ensures Genuine(Apply(s, step))
  {
    match step {
      case CenterReceive(sid) => ReceiveKeepsGenuine(s, sid);
      case Deliver(sid, i) => DeliverKeepsGenuine(s, sid, i);
      case _ =>
        StepAddsKnown(s, step);
        AddsKnownKeepsGenuine(s, Apply(s, step));
    }
  }

  lemma {:induction false} RunKeepsGenuine(s: Sys, steps: seq<Step>)
    requires Inv(s) && Genuine(s) && Runs(s, steps)
    ensures Genuine(Exec(s, steps))
    decreases |steps|
  {
    if steps != [] {
      StepKeeps(s, steps[0]);
      StepKeepsGenuine(s, steps[0]);
      RunKeepsGenuine(Apply(s, steps[0]), steps[1..]);
    }
  }

  /** Over any run from the start, whoever a node or the center has in a room did join
      that room at some node. */
  lemma {:induction false} NobodyInvented(s0: Sys, steps: seq<Step>, n: NodeId, r: RoomId, u: UserId)
    requires Initial(s0) && Runs(s0, steps)
    requires var s := Exec(s0, steps); u in Users(s, n, r) || u in RoomOf(s, r).users
    ensures (r, u) in Exec(s0, steps).past.joined
  {
    InitialInv(s0);
    RunKeepsGenuine(s0, steps);
  }
}
