/** Who hears that a user has joined: over every run, each other client of the node, once. */
module ClusterClients {
  import opened Common
  import opened ClusterBase
  import opened Cluster
  import SfuRoom

  ghost predicate HearingAt(s: Sys, n: NodeId, r: RoomId, v: UserId) {
    var us, at := Users(s, n, r), (n, r, v);
    && (at in s.past.heard.clients <==> v in us && us[v].online)
    && (at in s.past.heard.remotes <==> v in us && us[v].remote)
  }

  /** A node's entries say just who has a client and whom the center has told of. */
  ghost predicate Hearing(s: Sys) {
    forall n, r, v :: HearingAt(s, n, r, v)
  }

  lemma {:induction false} SameHearing(s: Sys, s': Sys)
    requires Hearing(s) && s'.past.heard == s.past.heard && forall n, r :: Users(s', n, r) == Users(s, n, r)
    ensures Hearing(s')
  {
    forall n, r, v
      ensures HearingAt(s', n, r, v)
    {
      assert HearingAt(s, n, r, v);
    }
  }

  /** Some users changed in one room of one node. */
  lemma {:induction false} RoomHearing(s: Sys, s': Sys, n: NodeId, r: RoomId)
    requires Hearing(s) && forall v :: HearingAt(s', n, r, v)
    requires forall n', r' :: n' != n || r' != r ==> Users(s', n', r') == Users(s, n', r')
    requires forall n', r', v :: n' != n || r' != r ==>
               ((n', r', v) in s'.past.heard.clients <==> (n', r', v) in s.past.heard.clients)
    requires forall n', r', v :: n' != n || r' != r ==>
               ((n', r', v) in s'.past.heard.remotes <==> (n', r', v) in s.past.heard.remotes)
    ensures Hearing(s')
  {
    forall n', r', v
      ensures HearingAt(s', n', r', v)
    {
      assert HearingAt(s, n', r', v);
    }
  }

  lemma {:induction false} OwnUsersAre(s: Sys, step: Step)
    requires Wired(s) && Enabled(s, step) && Own(step)
    ensures var s', us := Apply(s, step), Users(s, step.n, step.r);
            && s'.past.heard == OwnHeard(s.past.heard, us, step)
            && (forall n, r :: Users(s', n, r) == if n == step.n && r == step.r then OwnUsers(us, step) else Users(s, n, r))
  {
    var us := Users(s, step.n, step.r);
    LocalFacts(s, step.n, step.r, OwnUsers(us, step), OwnMessage(us, step));
    var s1 := Local(s, step.n, step.r, OwnUsers(us, step), OwnMessage(us, step));
    assert forall n, r :: Users(Apply(s, step), n, r) == Users(s1, n, r);
  }

  lemma {:induction false} OwnKeepsHearing(s: Sys, step: Step)
    requires Wired(s) && Hearing(s) && Enabled(s, step) && Own(step)
    ensures Hearing(Apply(s, step))
  {
    var s' := Apply(s, step);
    OwnUsersAre(s, step);
    forall v
      ensures HearingAt(s', step.n, step.r, v)
    {
      assert HearingAt(s, step.n, step.r, v);
    }
    RoomHearing(s, s', step.n, step.r);
  }

  lemma {:induction false} ReceivedUsersAre(s: Sys, n: NodeId, m: Down)
    requires Wired(s) && n in s.nodes
    ensures var s', us := Receive(s, n, m), Users(s, n, m.room);
            && s'.past.heard == ReceivedHeard(s.past.heard, n, us, m)
            && (forall n', r :: Users(s', n', r) == if n' == n && r == m.room then Absorbed(us, m) else Users(s, n', r))
  {
    var us := Absorbed(Users(s, n, m.room), m);
    SetUsersFacts(s, n, m.room, us);
    assert forall n', r :: Users(Receive(s, n, m), n', r) == Users(SetUsers(s, n, m.room, us), n', r);
  }

  lemma {:induction false} ReceiveKeepsHearing(s: Sys, n: NodeId, m: Down)
    requires Wired(s) && Hearing(s) && n in s.nodes
    ensures Hearing(Receive(s, n, m))
  {
    var s', marked := Receive(s, n, m), set v | v in Marked(Users(s, n, m.room), m) :: (n, m.room, v);
    ReceivedUsersAre(s, n, m);
    forall v
      ensures HearingAt(s', n, m.room, v)
    {
      assert HearingAt(s, n, m.room, v);
      assert (n, m.room, v) in marked <==> v in Marked(Users(s, n, m.room), m);
    }
    RoomHearing(s, s', n, m.room);
  }

  lemma {:induction false} DeliverKeepsHearing(s: Sys, sid: SessionId, i: nat)
    requires Inv(s) && Hearing(s) && Enabled(s, Deliver(sid, i))
    ensures Hearing(Apply(s, Deliver(sid, i)))
  {
    TakenFacts(s, sid, i);
    SameHearing(s, Taken(s, sid, i));
    ReceiveKeepsHearing(Taken(s, sid, i), s.links[sid].node, s.links[sid].down[i]);
  }

  /** The connection of a node has nothing to do with its users. */
  lemma {:induction false} ConnUsers(s: Sys, n: NodeId, conn: Option<SessionId>, links: map<SessionId, Link>)
    requires n in s.nodes
    ensures var s' := s.(nodes := s.nodes[n := s.nodes[n].(conn := conn)], links := links);
            s'.past == s.past && forall n', r :: Users(s', n', r) == Users(s, n', r)
  {
  }

  lemma {:induction false} SameNodesUsers(s: Sys, s': Sys)
    requires s'.nodes == s.nodes
    ensures forall n, r :: Users(s', n, r) == Users(s, n, r)
  {
  }

  lemma {:induction false} QuietUsersAre(s: Sys, step: Step)
    requires Inv(s) && Enabled(s, step) && !Own(step) && !step.Deliver?
    ensures var s' := Apply(s, step); s'.past.heard == s.past.heard && forall n, r :: Users(s', n, r) == Users(s, n, r)
  {
    match step {
      case Connect(n, sid) => ConnUsers(s, n, Some(sid), AfterConnect(s, n, sid).links);
      case Drop(n, kept) => ConnUsers(s, n, None, AfterDrop(s, n, kept).links);
      case CenterReceive(sid) =>
        HandlePast(Popped(s, sid), sid, s.links[sid].up[0]);
        SameNodesUsers(s, Apply(s, step));
      case CenterClose(sid) => SameNodesUsers(s, AfterCenterClose(s, sid));
      case IgnoreLate(sid, i) => SameNodesUsers(s, Apply(s, step));
    }
  }

  lemma {:induction false} StepKeepsHearing(s: Sys, step: Step)
    requires Inv(s) && Hearing(s) && Enabled(s, step)
    ensures Hearing(Apply(s, step))
  {
    if Own(step) {
      OwnKeepsHearing(s, step);
    } else if step.Deliver? {
      DeliverKeepsHearing(s, step.sid, step.i);
    } else {
      QuietUsersAre(s, step);
      SameHearing(s, Apply(s, step));
    }
  }

  lemma {:induction false} RunKeepsHearing(s: Sys, steps: seq<Step>)
    requires Inv(s) && Hearing(s) && Runs(s, steps)
    ensures Hearing(Exec(s, steps))
    decreases |steps|
  {
    if steps != [] {
      StepKeeps(s, steps[0]);
      StepKeepsHearing(s, steps[0]);
      RunKeepsHearing(Apply(s, steps[0]), steps[1..]);
    }
  }

  lemma {:induction false} InitialHearing(s: Sys)
    requires Initial(s)
    ensures Hearing(s)
  {
    assert forall n, r :: Users(s, n, r) == map[];
  }

  // ----- who is told

  /** `v` has a client at the node that is told of new users there. */
  ghost predicate Listens(s: Sys, n: NodeId, r: RoomId, v: UserId) {
    (n, r, v) in s.past.heard.clients && (n, r, v) !in s.past.heard.remotes
  }

  /** The step makes the node announce `u` in the room: on a join of its own, unless the user
      just listens or only reconnects, or on the first news of it from the center. */
  ghost predicate Announces(s: Sys, step: Step, n: NodeId, r: RoomId, u: UserId) {
    match step
    case UserJoin(n', r', u', audience) => n' == n && r' == r && u' == u && !audience && u !in Users(s, n, r)
    case WhipJoin(n', r', u') => n' == n && r' == r && u' == u
    case AgentJoin(n', r', u') => n' == n && r' == r && u' == u
    case Deliver(sid, i) =>
      && sid in s.links && i < |s.links[sid].down| && s.links[sid].node == n && u !in Users(s, n, r)
      && var m := s.links[sid].down[i]; m == NewUser(r, u) || (m.Joined? && m.room == r && u in m.users)
    case _ => false
  }

  lemma {:induction false} ToldInRoom(told: multiset<(NodeId, RoomId, UserId, UserId)>, n: NodeId, r: RoomId,
                                      us: SfuRoom.Users, news: set<UserId>, at: (NodeId, RoomId, UserId, UserId))
    ensures (told + multiset(Notified(n, r, us, news)))[at]
         == told[at] + if at.0 == n && at.1 == r && at.3 in news && at.2 in us && at.2 != at.3
                          && !us[at.2].remote && us[at.2].online then 1 else 0
  {
    assert at in Notified(n, r, us, news) <==>
      at.0 == n && at.1 == r && at.3 in news && at.2 in SfuRoom.Audience(us, at.3);
  }

  lemma {:induction false} OwnTells(s: Sys, step: Step, n: NodeId, r: RoomId, v: UserId, u: UserId)
    requires Wired(s) && Hearing(s) && Enabled(s, step) && Own(step)
    ensures Apply(s, step).past.heard.told[(n, r, v, u)]
         == s.past.heard.told[(n, r, v, u)] + if Announces(s, step, n, r, u) && v != u && Listens(s, n, r, v) then 1 else 0
  {
    var us := Users(s, step.n, step.r);
    OwnUsersAre(s, step);
    assert HearingAt(s, n, r, v);
    ToldInRoom(s.past.heard.told, step.n, step.r, OwnUsers(us, step), OwnNews(us, step), (n, r, v, u));
  }

  lemma {:induction false} DeliverTells(s: Sys, sid: SessionId, i: nat, n: NodeId, r: RoomId, v: UserId, u: UserId)
    requires Inv(s) && Hearing(s) && Enabled(s, Deliver(sid, i))
    ensures Apply(s, Deliver(sid, i)).past.heard.told[(n, r, v, u)]
         == s.past.heard.told[(n, r, v, u)]
            + if Announces(s, Deliver(sid, i), n, r, u) && v != u && Listens(s, n, r, v) then 1 else 0
  {
    var m, at := s.links[sid].down[i], s.links[sid].node;
    var us := Users(s, at, m.room);
    TakenFacts(s, sid, i);
    ReceivedUsersAre(Taken(s, sid, i), at, m);
    assert HearingAt(s, n, r, v);
    ToldInRoom(s.past.heard.told, at, m.room, Absorbed(us, m), Announced(us, m), (n, r, v, u));
  }

  lemma {:induction false} StepTells(s: Sys, step: Step, n: NodeId, r: RoomId, v: UserId, u: UserId)
    requires Inv(s) && Hearing(s) && Enabled(s, step)
    ensures Apply(s, step).past.heard.told[(n, r, v, u)]
         == s.past.heard.told[(n, r, v, u)] + if Announces(s, step, n, r, u) && v != u && Listens(s, n, r, v) then 1 else 0
  {
    if Own(step) {
      OwnTells(s, step, n, r, v, u);
    } else if step.Deliver? {
      DeliverTells(s, step.sid, step.i, n, r, v, u);
    } else {
      QuietUsersAre(s, step);
    }
  }

  /** After any run from the start, whatever step comes next: a client is told of a user, and
      then once, exactly when its node announces that user and the client is another's that
      still listens. */
  lemma {:induction false} ToldExactly(s0: Sys, steps: seq<Step>, step: Step, n: NodeId, r: RoomId, v: UserId, u: UserId)
    requires Initial(s0) && Runs(s0, steps) && Wired(Exec(s0, steps)) && Enabled(Exec(s0, steps), step)
    ensures var s := Exec(s0, steps);
            Apply(s, step).past.heard.told[(n, r, v, u)]
            == s.past.heard.told[(n, r, v, u)] + if Announces(s, step, n, r, u) && v != u && Listens(s, n, r, v) then 1 else 0
  {
    InitialInv(s0);
    InitialHearing(s0);
    RunKeeps(s0, steps);
    RunKeepsHearing(s0, steps);
    StepTells(Exec(s0, steps), step, n, r, v, u);
  }

  // ----- who listens

  /** What ends a client's being told: it is lost, its user is erased or replaced by the agent,
      or the center tells the node of a pusher of that very user. */
  ghost predicate Ends(s: Sys, step: Step, n: NodeId, r: RoomId, v: UserId) {
    match step
    case ClientLost(n', r', v') => n' == n && r' == r && v' == v
    case Expire(n', r', v') => n' == n && r' == r && v' == v
    case AgentJoin(n', r', v') => n' == n && r' == r && v' == v
    case Deliver(sid, i) =>
      && sid in s.links && i < |s.links[sid].down| && s.links[sid].node == n && s.links[sid].down[i] == NewPusher(r, v)
    case _ => false
  }

  lemma {:induction false} OwnListensIff(s: Sys, step: Step, n: NodeId, r: RoomId, v: UserId)
    requires Wired(s) && HearingAt(s, n, r, v) && Enabled(s, step) && Own(step)
    ensures Listens(Apply(s, step), n, r, v) <==>
              || (step.UserJoin? && step.n == n && step.r == r && step.u == v && v !in Users(s, n, r))
              || (Listens(s, n, r, v) && !Ends(s, step, n, r, v))
  {
    OwnUsersAre(s, step);
  }

  lemma {:induction false} DeliveredListensIff(s: Sys, sid: SessionId, i: nat, n: NodeId, r: RoomId, v: UserId)
    requires Inv(s) && HearingAt(s, n, r, v) && Enabled(s, Deliver(sid, i))
    ensures Listens(Apply(s, Deliver(sid, i)), n, r, v) <==> Listens(s, n, r, v) && !Ends(s, Deliver(sid, i), n, r, v)
  {
    TakenFacts(s, sid, i);
    ReceivedUsersAre(Taken(s, sid, i), s.links[sid].node, s.links[sid].down[i]);
  }

  /** A client listens from the join of its user as a new one until one of those ends it. */
  lemma {:induction false} ListensIff(s: Sys, step: Step, n: NodeId, r: RoomId, v: UserId)
    requires Inv(s) && Hearing(s) && Enabled(s, step)
    ensures Listens(Apply(s, step), n, r, v) <==>
              || (step.UserJoin? && step.n == n && step.r == r && step.u == v && v !in Users(s, n, r))
              || (Listens(s, n, r, v) && !Ends(s, step, n, r, v))
  {
    assert HearingAt(s, n, r, v);
    if Own(step) {
      OwnListensIff(s, step, n, r, v);
    } else if step.Deliver? {
      DeliveredListensIff(s, step.sid, step.i, n, r, v);
    } else {
      QuietUsersAre(s, step);
    }
  }

  ghost predicate Undisturbed(s: Sys, steps: seq<Step>, n: NodeId, r: RoomId, v: UserId)
    requires Runs(s, steps)
    decreases |steps|
  {
    steps != [] ==> !Ends(s, steps[0], n, r, v) && Undisturbed(Apply(s, steps[0]), steps[1..], n, r, v)
  }

  lemma {:induction false} KeepsListening(s: Sys, steps: seq<Step>, n: NodeId, r: RoomId, v: UserId)
    requires Inv(s) && Hearing(s) && Listens(s, n, r, v) && Runs(s, steps) && Undisturbed(s, steps, n, r, v)
    ensures Inv(Exec(s, steps)) && Hearing(Exec(s, steps)) && Listens(Exec(s, steps), n, r, v)
    decreases |steps|
  {
    if steps != [] {
      StepKeeps(s, steps[0]);
      StepKeepsHearing(s, steps[0]);
      ListensIff(s, steps[0], n, r, v);
      KeepsListening(Apply(s, steps[0]), steps[1..], n, r, v);
    }
  }

  /** In every run: a user that joined a room at a node as a new one is told, exactly once, of
      every other user that the node announces there later, unless in between its client was
      lost, or it was erased, or replaced by the agent, or the center told of a pusher of it. */
  lemma {:induction false} JoinedAreTold(s0: Sys, before: seq<Step>, audience: bool, after: seq<Step>, step: Step,
                                         n: NodeId, r: RoomId, v: UserId, u: UserId)
    requires Initial(s0) && Runs(s0, before) && Wired(Exec(s0, before))
    requires n in Exec(s0, before).nodes && v !in Users(Exec(s0, before), n, r)
    requires var s1 := Apply(Exec(s0, before), UserJoin(n, r, v, audience));
             Runs(s1, after) && Undisturbed(s1, after, n, r, v) && Wired(Exec(s1, after))
             && Enabled(Exec(s1, after), step) && Announces(Exec(s1, after), step, n, r, u) && u != v
    ensures var s2 := Exec(Apply(Exec(s0, before), UserJoin(n, r, v, audience)), after);
            Apply(s2, step).past.heard.told[(n, r, v, u)] == s2.past.heard.told[(n, r, v, u)] + 1
  {
    var s, join := Exec(s0, before), UserJoin(n, r, v, audience);
    InitialInv(s0);
    InitialHearing(s0);
    RunKeeps(s0, before);
    RunKeepsHearing(s0, before);
    StepKeeps(s, join);
    StepKeepsHearing(s, join);
    ListensIff(s, join, n, r, v);
    KeepsListening(Apply(s, join), after, n, r, v);
    StepTells(Exec(Apply(s, join), after), step, n, r, v, u);
  }
}
