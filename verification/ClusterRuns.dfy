/** Two runs of a cluster of two nodes that end with nothing under way and a node that does
    not know a user of its room: where the protocol's promise ends. */
module ClusterRuns {
  import opened Common
  import opened ClusterBase
  import opened Cluster
  import PilotRoom
  import SfuRoom

  /** What one room looks like at a node, and what is under way on the node's link. */
  datatype Side = Side(us: SfuRoom.Users, up: seq<Up>, down: seq<Down>)

  /** Two nodes, each connected by the session of its own number, and the room at the
      center. */
  datatype View = View(a: Side, b: Side, st: PilotRoom.State)

  function At(w: View, n: nat): Side {
    if n == 0 then w.a else w.b
  }

  function With(w: View, n: nat, side: Side): View {
    if n == 0 then w.(a := side) else w.(b := side)
  }

  ghost predicate SeenAt(s: Sys, r: RoomId, n: nat, side: Side) {
    && n in s.nodes && s.nodes[n].conn == Some(n) && Users(s, n, r) == side.us
    && n in s.links && s.links[n] == Link(n, side.up, side.down, true, true)
  }

  ghost predicate Seen(s: Sys, r: RoomId, w: View) {
    && s.links.Keys == {0, 1} && SeenAt(s, r, 0, w.a) && SeenAt(s, r, 1, w.b) && RoomOf(s, r) == w.st
  }

  /** A run so far: it is a run, and what it leads to looks like `w`. */
  ghost predicate Leads(s0: Sys, steps: seq<Step>, r: RoomId, w: View) {
    Runs(s0, steps) && Wired(Exec(s0, steps)) && Seen(Exec(s0, steps), r, w)
  }

  lemma {:induction false} ExecSnoc(s: Sys, steps: seq<Step>, step: Step)
    requires Runs(s, steps) && Wired(Exec(s, steps)) && Enabled(Exec(s, steps), step)
    ensures Runs(s, steps + [step]) && Exec(s, steps + [step]) == Apply(Exec(s, steps), step)
    decreases |steps|
  {
    var all := steps + [step];
    if steps == [] {
      assert all == [step] && [step][1..] == [];
    } else {
      assert all[0] == steps[0] && all[1..] == steps[1..] + [step];
      ExecSnoc(Apply(s, steps[0]), steps[1..], step);
    }
  }

  /** A step that keeps the invariant extends a run. */
  lemma {:induction false} Extend(s0: Sys, steps: seq<Step>, step: Step, r: RoomId, w: View, w': View)
    requires Initial(s0) && Leads(s0, steps, r, w) && Enabled(Exec(s0, steps), step)
    requires Seen(Apply(Exec(s0, steps), step), r, w')
    ensures Leads(s0, steps + [step], r, w')
  {
    ExecSnoc(s0, steps, step);
    InitialInv(s0);
    RunKeeps(s0, steps + [step]);
  }

  // ----- what single changes do to what is seen

  lemma {:induction false} SeesUsers(s: Sys, r: RoomId, w: View, n: nat, us: SfuRoom.Users)
    requires Seen(s, r, w) && n <= 1
    ensures Seen(SetUsers(s, n, r, us), r, With(w, n, At(w, n).(us := us)))
  {
  }

  lemma {:induction false} SeesUp(s: Sys, r: RoomId, w: View, n: nat, m: Up)
    requires Seen(s, r, w) && n <= 1
    ensures Seen(SendUp(s, n, m), r, With(w, n, At(w, n).(up := At(w, n).up + [m])))
  {
    assert SendUp(s, n, m).links.Keys == s.links.Keys;
  }

  /** A message at the end of a queue, if it is sent there. */
  function Sent(side: Side, sent: bool, m: Down): Side {
    if sent then side.(down := side.down + [m]) else side
  }

  lemma {:induction false} SeesDown(s: Sys, r: RoomId, w: View, to: set<SessionId>, m: Down)
    requires Seen(s, r, w)
    ensures Seen(SendDown(s, to, m), r, View(Sent(w.a, 0 in to, m), Sent(w.b, 1 in to, m), w.st))
  {
    assert SendDown(s, to, m).links.Keys == s.links.Keys;
  }

  lemma {:induction false} SeesRoom(s: Sys, r: RoomId, w: View, st: PilotRoom.State,
                                    parts: map<SessionId, set<Member>>, past: History)
    requires Seen(s, r, w)
    ensures Seen(SetRoom(s, r, st).(parts := parts, past := past), r, w.(st := st))
  {
  }

  lemma {:induction false} SeesPast(s: Sys, r: RoomId, w: View, past: History)
    requires Seen(s, r, w)
    ensures Seen(s.(past := past), r, w)
  {
  }

  lemma {:induction false} SeesPopped(s: Sys, r: RoomId, w: View, n: nat)
    requires Seen(s, r, w) && n <= 1 && At(w, n).up != []
    ensures n in s.links && s.links[n].up != [] && Seen(Popped(s, n), r, With(w, n, At(w, n).(up := At(w, n).up[1..])))
  {
    assert Popped(s, n).links.Keys == s.links.Keys;
  }

  lemma {:induction false} SeesTaken(s: Sys, r: RoomId, w: View, n: nat)
    requires Seen(s, r, w) && n <= 1 && At(w, n).down != []
    ensures n in s.links && s.links[n].down != []
    ensures Seen(Taken(s, n, 0), r, With(w, n, At(w, n).(down := At(w, n).down[1..])))
  {
    assert Without(At(w, n).down, 0) == At(w, n).down[1..];
    assert Taken(s, n, 0).links.Keys == s.links.Keys;
  }

  // ----- what single steps do to what is seen

  /** Both nodes get connected, having some users already. */
  lemma {:induction false} Connects(s: Sys, r: RoomId, us: SfuRoom.Users, us': SfuRoom.Users)
    requires Wired(s) && s.nodes.Keys == {0, 1} && s.links == map[] && s.rooms == map[]
    requires s.nodes[0].conn == None && s.nodes[1].conn == None && Users(s, 0, r) == us && Users(s, 1, r) == us'
    ensures Enabled(s, Connect(0, 0))
    ensures var s1 := Apply(s, Connect(0, 0));
            Wired(s1) && Enabled(s1, Connect(1, 1))
            && Seen(Apply(s1, Connect(1, 1)), r, View(Side(us, [], []), Side(us', [], []), PilotRoom.Empty))
  {
    var s1 := AfterConnect(s, 0, 0);
    assert 0 in s.nodes.Keys && 1 in s.nodes.Keys;
    assert s1.links.Keys == {0} && s1.nodes.Keys == {0, 1};
    assert AfterConnect(s1, 1, 1).links.Keys == {0, 1};
  }

  lemma {:induction false} SeesLocal(s: Sys, r: RoomId, w: View, n: nat, us: SfuRoom.Users, m: Up, past: History)
    requires Seen(s, r, w) && n <= 1
    ensures Seen(Local(s, n, r, us, m).(past := past), r, With(w, n, Side(us, At(w, n).up + [m], At(w, n).down)))
  {
    var s1, w1 := SetUsers(s, n, r, us), With(w, n, At(w, n).(us := us));
    SeesUsers(s, r, w, n, us);
    SeesUp(s1, r, w1, n, m);
    SeesPast(SendUp(s1, n, m), r, With(w1, n, At(w1, n).(up := At(w1, n).up + [m])), past);
  }

  lemma {:induction false} SeesUserJoin(s: Sys, r: RoomId, w: View, n: nat, u: UserId)
    requires Seen(s, r, w) && n <= 1 && u !in At(w, n).us
    ensures Enabled(s, UserJoin(n, r, u, false))
    ensures Seen(Apply(s, UserJoin(n, r, u, false)), r,
                 With(w, n, Side(SfuRoom.AfterUserJoin(At(w, n).us, u, false), At(w, n).up + [Join(r, u, false)], At(w, n).down)))
  {
    SeesLocal(s, r, w, n, SfuRoom.AfterUserJoin(At(w, n).us, u, false), Join(r, u, false),
              OwnPast(s.past, At(w, n).us, UserJoin(n, r, u, false)));
  }

  lemma {:induction false} SeesUserPush(s: Sys, r: RoomId, w: View, n: nat, u: UserId)
    requires Seen(s, r, w) && n <= 1 && u in At(w, n).us
    ensures Enabled(s, UserPush(n, r, u))
    ensures Seen(Apply(s, UserPush(n, r, u)), r, With(w, n, At(w, n).(up := At(w, n).up + [Push(r, u)])))
  {
    SeesLocal(s, r, w, n, At(w, n).us, Push(r, u), OwnPast(s.past, At(w, n).us, UserPush(n, r, u)));
  }

  lemma {:induction false} SeesJoin(s: Sys, r: RoomId, w: View, n: nat, u: UserId)
    requires Seen(s, r, w) && n <= 1 && At(w, n).up == [Join(r, u, false)]
    ensures Enabled(s, CenterReceive(n))
    ensures var st := PilotRoom.AfterJoin(w.st, u, false, n);
            var w1 := With(w, n, At(w, n).(up := [])).(st := st);
            var w2 := View(Sent(w1.a, 0 in st.sessions - {n}, NewUser(r, u)),
                           Sent(w1.b, 1 in st.sessions - {n}, NewUser(r, u)), st);
            var w3 := View(Sent(w2.a, 0 in {n}, Joined(r, PilotRoom.Listing(st, u))),
                           Sent(w2.b, 1 in {n}, Joined(r, PilotRoom.Listing(st, u))), st);
            Seen(Apply(s, CenterReceive(n)), r, w3)
  {
    var st := PilotRoom.AfterJoin(w.st, u, false, n);
    SeesPopped(s, r, w, n);
    var s0, w0 := Popped(s, n), With(w, n, At(w, n).(up := []));
    var parts, past := s0.parts[n := PartsOf(s0, n) + {(r, u)}], JoinedPast(s0.past, n, r, u, false);
    SeesRoom(s0, r, w0, st, parts, past);
    var s1, w1 := SetRoom(s0, r, st).(parts := parts, past := past), w0.(st := st);
    SeesDown(s1, r, w1, st.sessions - {n}, NewUser(r, u));
    var w2 := View(Sent(w1.a, 0 in st.sessions - {n}, NewUser(r, u)),
                           Sent(w1.b, 1 in st.sessions - {n}, NewUser(r, u)), st);
    SeesDown(SendDown(s1, st.sessions - {n}, NewUser(r, u)), r, w2, {n}, Joined(r, PilotRoom.Listing(st, u)));
  }

  /** A push by a user the center does not know. */
  lemma {:induction false} SeesPush(s: Sys, r: RoomId, w: View, n: nat, u: UserId)
    requires Seen(s, r, w) && n <= 1 && At(w, n).up == [Push(r, u)] && u !in w.st.users
    ensures Enabled(s, CenterReceive(n))
    ensures var st := PilotRoom.AfterPush(w.st, u);
            var w1 := With(w, n, At(w, n).(up := [])).(st := st);
            Seen(Apply(s, CenterReceive(n)), r,
                 View(Sent(w1.a, 0 in st.sessions, NewPusher(r, u)), Sent(w1.b, 1 in st.sessions, NewPusher(r, u)), st))
  {
    var st := PilotRoom.AfterPush(w.st, u);
    SeesPopped(s, r, w, n);
    var s0, w0 := Popped(s, n), With(w, n, At(w, n).(up := []));
    var past := s0.past.(pushed := s0.past.pushed + {(r, u)});
    SeesRoom(s0, r, w0, st, s0.parts, past);
    assert PilotRoom.Recipients(st, u) == st.sessions;
    SeesDown(SetRoom(s0, r, st).(parts := s0.parts, past := past), r, w0.(st := st), st.sessions, NewPusher(r, u));
  }

  lemma {:induction false} SeesDelivery(s: Sys, r: RoomId, w: View, n: nat)
    requires Seen(s, r, w) && n <= 1 && At(w, n).down != [] && At(w, n).down[0].room == r
    ensures Enabled(s, Deliver(n, 0))
    ensures var side := At(w, n);
            Seen(Apply(s, Deliver(n, 0)), r, With(w, n, Side(Absorbed(side.us, side.down[0]), side.up, side.down[1..])))
  {
    var side := At(w, n);
    SeesTaken(s, r, w, n);
    var s1, w1 := Taken(s, n, 0), With(w, n, side.(down := side.down[1..]));
    SeesUsers(s1, r, w1, n, Absorbed(side.us, side.down[0]));
    SeesPast(SetUsers(s1, n, r, Absorbed(side.us, side.down[0])), r,
             With(w1, n, At(w1, n).(us := Absorbed(side.us, side.down[0]))), Apply(s, Deliver(n, 0)).past);
  }

  lemma {:induction false} SeesIgnored(s: Sys, r: RoomId, w: View, n: nat)
    requires Seen(s, r, w) && n <= 1 && At(w, n).down != [] && At(w, n).down[0].Joined?
    ensures Enabled(s, IgnoreLate(n, 0))
    ensures Seen(Apply(s, IgnoreLate(n, 0)), r, With(w, n, At(w, n).(down := At(w, n).down[1..])))
  {
    SeesTaken(s, r, w, n);
    SeesPast(Taken(s, n, 0), r, With(w, n, At(w, n).(down := At(w, n).down[1..])), Apply(s, IgnoreLate(n, 0)).past);
  }

  // ----- the runs

  /** Nothing is under way, session 1 is registered in the room, the user takes part there
      for all to see, and node 1 does not know it. */
  ghost predicate QuietlyMissing(s: Sys, r: RoomId, u: UserId) {
    && s.links.Keys == {0, 1} && (forall sid :: sid in s.links ==> s.links[sid].up == [] && s.links[sid].down == [])
    && s.links[1].node == 1 && s.links[1].open && 1 in RoomOf(s, r).sessions
    && u in RoomOf(s, r).users && !RoomOf(s, r).users[u].audience && u !in Users(s, 1, r)
  }

  /** From nodes that have some users but no connection, after a run, both connect. */
  lemma {:induction false} Connected(s0: Sys, steps: seq<Step>, r: RoomId, us: SfuRoom.Users) returns (all: seq<Step>)
    requires Initial(s0) && Runs(s0, steps) && Wired(Exec(s0, steps))
    requires var s := Exec(s0, steps);
             && s.nodes.Keys == {0, 1} && s.links == map[] && s.rooms == map[]
             && s.nodes[0].conn == None && s.nodes[1].conn == None && Users(s, 0, r) == us && Users(s, 1, r) == map[]
    ensures Leads(s0, all, r, View(Side(us, [], []), Side(map[], [], []), PilotRoom.Empty))
  {
    Connects(Exec(s0, steps), r, us, map[]);
    ExecSnoc(s0, steps, Connect(0, 0));
    ExecSnoc(s0, steps + [Connect(0, 0)], Connect(1, 1));
    all := steps + [Connect(0, 0)] + [Connect(1, 1)];
    InitialInv(s0);
    RunKeeps(s0, all);
  }

  lemma {:induction false} ThenJoins(s0: Sys, steps: seq<Step>, r: RoomId, w: View, n: nat, u: UserId)
    returns (all: seq<Step>)
    requires Initial(s0) && Leads(s0, steps, r, w) && n <= 1 && u !in At(w, n).us && At(w, n).up == []
    ensures Leads(s0, all, r, With(w, n, Side(SfuRoom.AfterUserJoin(At(w, n).us, u, false), [Join(r, u, false)], At(w, n).down)))
  {
    SeesUserJoin(Exec(s0, steps), r, w, n, u);
    assert [] + [Join(r, u, false)] == [Join(r, u, false)];
    Extend(s0, steps, UserJoin(n, r, u, false), r, w,
           With(w, n, Side(SfuRoom.AfterUserJoin(At(w, n).us, u, false), [Join(r, u, false)], At(w, n).down)));
    all := steps + [UserJoin(n, r, u, false)];
  }

  lemma {:induction false} ThenPushes(s0: Sys, steps: seq<Step>, r: RoomId, w: View, n: nat, u: UserId)
    returns (all: seq<Step>)
    requires Initial(s0) && Leads(s0, steps, r, w) && n <= 1 && u in At(w, n).us && At(w, n).up == []
    ensures Leads(s0, all, r, With(w, n, At(w, n).(up := [Push(r, u)])))
  {
    SeesUserPush(Exec(s0, steps), r, w, n, u);
    assert [] + [Push(r, u)] == [Push(r, u)];
    Extend(s0, steps, UserPush(n, r, u), r, w, With(w, n, At(w, n).(up := [Push(r, u)])));
    all := steps + [UserPush(n, r, u)];
  }

  /** What is seen after the center has handled a join. */
  function Admitted(w: View, n: nat, r: RoomId, u: UserId): View {
    var st := PilotRoom.AfterJoin(w.st, u, false, n);
    var w1 := With(w, n, At(w, n).(up := []));
    View(Sent(Sent(w1.a, 0 in st.sessions - {n}, NewUser(r, u)), 0 in {n}, Joined(r, PilotRoom.Listing(st, u))),
         Sent(Sent(w1.b, 1 in st.sessions - {n}, NewUser(r, u)), 1 in {n}, Joined(r, PilotRoom.Listing(st, u))), st)
  }

  lemma {:induction false} ThenAdmits(s0: Sys, steps: seq<Step>, r: RoomId, w: View, n: nat, u: UserId)
    returns (all: seq<Step>)
    requires Initial(s0) && Leads(s0, steps, r, w) && n <= 1 && At(w, n).up == [Join(r, u, false)]
    ensures Leads(s0, all, r, Admitted(w, n, r, u))
  {
    SeesJoin(Exec(s0, steps), r, w, n, u);
    Extend(s0, steps, CenterReceive(n), r, w, Admitted(w, n, r, u));
    all := steps + [CenterReceive(n)];
  }

  lemma {:induction false} ThenDelivers(s0: Sys, steps: seq<Step>, r: RoomId, w: View, n: nat) returns (all: seq<Step>)
    requires Initial(s0) && Leads(s0, steps, r, w) && n <= 1 && At(w, n).down != [] && At(w, n).down[0].room == r
    ensures var side := At(w, n);
            Leads(s0, all, r, With(w, n, Side(Absorbed(side.us, side.down[0]), side.up, side.down[1..])))
  {
    var side := At(w, n);
    SeesDelivery(Exec(s0, steps), r, w, n);
    Extend(s0, steps, Deliver(n, 0), r, w, With(w, n, Side(Absorbed(side.us, side.down[0]), side.up, side.down[1..])));
    all := steps + [Deliver(n, 0)];
  }

  lemma {:induction false} ThenIgnores(s0: Sys, steps: seq<Step>, r: RoomId, w: View, n: nat) returns (all: seq<Step>)
    requires Initial(s0) && Leads(s0, steps, r, w) && n <= 1 && At(w, n).down != [] && At(w, n).down[0].Joined?
    ensures Leads(s0, all, r, With(w, n, At(w, n).(down := At(w, n).down[1..])))
  {
    SeesIgnored(Exec(s0, steps), r, w, n);
    Extend(s0, steps, IgnoreLate(n, 0), r, w, With(w, n, At(w, n).(down := At(w, n).down[1..])));
    all := steps + [IgnoreLate(n, 0)];
  }

  /** What is seen after the center has handled a push by a user it did not know. */
  function Taught(w: View, n: nat, r: RoomId, u: UserId): View {
    var st := PilotRoom.AfterPush(w.st, u);
    var w1 := With(w, n, At(w, n).(up := [])).(st := st);
    View(Sent(w1.a, 0 in st.sessions, NewPusher(r, u)), Sent(w1.b, 1 in st.sessions, NewPusher(r, u)), st)
  }

  lemma {:induction false} ThenLearns(s0: Sys, steps: seq<Step>, r: RoomId, w: View, n: nat, u: UserId)
    returns (all: seq<Step>)
    requires Initial(s0) && Leads(s0, steps, r, w) && n <= 1 && At(w, n).up == [Push(r, u)] && u !in w.st.users
    ensures Leads(s0, all, r, Taught(w, n, r, u))
  {
    SeesPush(Exec(s0, steps), r, w, n, u);
    Extend(s0, steps, CenterReceive(n), r, w, Taught(w, n, r, u));
    all := steps + [CenterReceive(n)];
  }

  const Nobody: SfuRoom.Users := map[]

  function Only(u: UserId): SfuRoom.Users {
    map[u := SfuRoom.User(false, false, true)]
  }

  function Quiet(us: SfuRoom.Users): Side {
    Side(us, [], [])
  }

  lemma NothingListed(u: UserId, r: RoomId)
    ensures Absorbed(Only(u), Joined(r, {})) == Only(u) && [Joined(r, {})][1..] == []
  {
    assert SfuRoom.AfterJoined(Only(u), {}) == Only(u);
  }

  lemma FirstListing(u: UserId, n: nat)
    ensures PilotRoom.Listing(PilotRoom.AfterJoin(PilotRoom.Empty, u, false, n), u) == {}
    ensures SfuRoom.AfterUserJoin(Nobody, u, false) == Only(u)
  {
  }

  lemma {:induction false} FirstAdmitted(w: View, n: nat, r: RoomId, u: UserId)
    requires n <= 1 && At(w, n) == Quiet(Nobody) && w.st == PilotRoom.Empty
    ensures Admitted(With(w, n, Side(Only(u), [Join(r, u, false)], [])), n, r, u)
         == With(w, n, Side(Only(u), [], [Joined(r, {})])).(st := PilotRoom.AfterJoin(PilotRoom.Empty, u, false, n))
  {
    FirstListing(u, n);
  }

  /** A first user joins at a node and the response arrives. */
  lemma {:induction false} FirstJoin(s0: Sys, before: seq<Step>, r: RoomId, w: View, n: nat, u: UserId)
    returns (steps: seq<Step>)
    requires Initial(s0) && Leads(s0, before, r, w) && n <= 1
    requires At(w, n) == Quiet(Nobody) && w.st == PilotRoom.Empty
    ensures Leads(s0, steps, r, With(w, n, Quiet(Only(u))).(st := PilotRoom.AfterJoin(PilotRoom.Empty, u, false, n)))
  {
    var st := PilotRoom.AfterJoin(PilotRoom.Empty, u, false, n);
    steps := ThenJoins(s0, before, r, w, n, u);
    var w1 := With(w, n, Side(Only(u), [Join(r, u, false)], []));
    FirstListing(u, n);
    FirstAdmitted(w, n, r, u);
    steps := ThenAdmits(s0, steps, r, w1, n, u);
    NothingListed(u, r);
    steps := ThenDelivers(s0, steps, r, With(w, n, Side(Only(u), [], [Joined(r, {})])).(st := st), n);
  }

  lemma {:induction false} ConnectedFirst(s0: Sys, r: RoomId) returns (steps: seq<Step>)
    requires Initial(s0) && s0.nodes.Keys == {0, 1}
    ensures Leads(s0, steps, r, View(Quiet(Nobody), Quiet(Nobody), PilotRoom.Empty))
  {
    assert 0 in s0.nodes.Keys && 1 in s0.nodes.Keys;
    InitialInv(s0);
    steps := Connected(s0, [], r, Nobody);
  }

  lemma SecondAdmitted(r: RoomId, u: UserId, v: UserId)
    requires u != v
    ensures var st := PilotRoom.AfterJoin(PilotRoom.Empty, u, false, 0);
            Admitted(View(Quiet(Only(u)), Side(Only(v), [Join(r, v, false)], []), st), 1, r, v)
            == View(Side(Only(u), [], [NewUser(r, v)]), Side(Only(v), [], [Joined(r, {u})]), PilotRoom.AfterJoin(st, v, false, 1))
  {
    var st := PilotRoom.AfterJoin(PilotRoom.AfterJoin(PilotRoom.Empty, u, false, 0), v, false, 1);
    assert PilotRoom.Listing(st, v) == {u};
  }

  lemma {:induction false} EndsMissing(s0: Sys, steps: seq<Step>, r: RoomId, w: View, u: UserId)
    requires Leads(s0, steps, r, w) && u !in w.b.us && 1 in w.st.sessions
    requires w.a.up == [] && w.a.down == [] && w.b.up == [] && w.b.down == []
    requires u in w.st.users && !w.st.users[u].audience
    ensures Runs(s0, steps) && QuietlyMissing(Exec(s0, steps), r, u)
  {
  }

  lemma {:induction false} Ignored(s0: Sys, before: seq<Step>, r: RoomId, u: UserId, v: UserId,
                                   us: SfuRoom.Users, st: PilotRoom.State)
    returns (steps: seq<Step>)
    requires Initial(s0) && u != v && u in st.users && !st.users[u].audience && 1 in st.sessions
    requires Leads(s0, before, r, View(Quiet(us), Side(Only(v), [], [Joined(r, {u})]), st))
    ensures Runs(s0, steps) && QuietlyMissing(Exec(s0, steps), r, u)
  {
    steps := ThenIgnores(s0, before, r, View(Quiet(us), Side(Only(v), [], [Joined(r, {u})]), st), 1);
    EndsMissing(s0, steps, r, View(Quiet(us), Quiet(Only(v)), st), u);
  }

  lemma {:induction false} DeliveredAndIgnored(s0: Sys, before: seq<Step>, r: RoomId, u: UserId, v: UserId,
                                            st: PilotRoom.State)
    returns (steps: seq<Step>)
    requires Initial(s0) && u != v && u in st.users && !st.users[u].audience && 1 in st.sessions
    requires Leads(s0, before, r, View(Side(Only(u), [], [NewUser(r, v)]), Side(Only(v), [], [Joined(r, {u})]), st))
    ensures Runs(s0, steps) && QuietlyMissing(Exec(s0, steps), r, u)
  {
    steps := ThenDelivers(s0, before, r, View(Side(Only(u), [], [NewUser(r, v)]), Side(Only(v), [], [Joined(r, {u})]), st), 0);
    steps := Ignored(s0, steps, r, u, v, SfuRoom.AfterNewUser(Only(u), v), st);
  }

  lemma {:induction false} SecondIgnored(s0: Sys, before: seq<Step>, r: RoomId, u: UserId, v: UserId)
    returns (steps: seq<Step>)
    requires Initial(s0) && u != v
    requires Leads(s0, before, r, View(Quiet(Only(u)), Quiet(Nobody), PilotRoom.AfterJoin(PilotRoom.Empty, u, false, 0)))
    ensures Runs(s0, steps) && QuietlyMissing(Exec(s0, steps), r, u)
  {
    var w3 := View(Quiet(Only(u)), Quiet(Nobody), PilotRoom.AfterJoin(PilotRoom.Empty, u, false, 0));
    steps := ThenJoins(s0, before, r, w3, 1, v);
    FirstListing(v, 1);
    var w4 := w3.(b := Side(Only(v), [Join(r, v, false)], []));
    steps := ThenAdmits(s0, steps, r, w4, 1, v);
    var st := PilotRoom.AfterJoin(w3.st, v, false, 1);
    SecondAdmitted(r, u, v);
    steps := DeliveredAndIgnored(s0, steps, r, u, v, st);
  }

  /** Two users join, one at each node; the response to the second comes too late. */
  lemma {:induction false} LateResponseLoses(s0: Sys, r: RoomId, u: UserId, v: UserId) returns (steps: seq<Step>)
    requires Initial(s0) && s0.nodes.Keys == {0, 1} && u != v
    ensures Runs(s0, steps) && QuietlyMissing(Exec(s0, steps), r, u)
  {
    steps := ConnectedFirst(s0, r);
    steps := FirstJoin(s0, steps, r, View(Quiet(Nobody), Quiet(Nobody), PilotRoom.Empty), 0, u);
    steps := SecondIgnored(s0, steps, r, u, v);
  }

  lemma {:induction false} TaughtBy(r: RoomId, u: UserId, v: UserId, st: PilotRoom.State)
    requires u !in st.users && st.sessions == {1}
    ensures Taught(View(Side(Only(u), [Push(r, u)], []), Quiet(Only(v)), st), 0, r, u)
         == View(Quiet(Only(u)), Side(Only(v), [], [NewPusher(r, u)]), PilotRoom.AfterPush(st, u))
  {
  }

  lemma {:induction false} Heard(s0: Sys, before: seq<Step>, r: RoomId, u: UserId, v: UserId, st: PilotRoom.State)
    returns (steps: seq<Step>)
    requires Initial(s0) && u != v && u in st.users && !st.users[u].audience && 1 in st.sessions
    requires Leads(s0, before, r, View(Quiet(Only(u)), Side(Only(v), [], [NewPusher(r, u)]), st))
    ensures Runs(s0, steps) && QuietlyMissing(Exec(s0, steps), r, u)
  {
    steps := ThenDelivers(s0, before, r, View(Quiet(Only(u)), Side(Only(v), [], [NewPusher(r, u)]), st), 1);
    EndsMissing(s0, steps, r, View(Quiet(Only(u)), Quiet(Only(v)), st), u);
  }

  lemma {:induction false} Pushed(s0: Sys, before: seq<Step>, r: RoomId, u: UserId, v: UserId)
    returns (steps: seq<Step>)
    requires Initial(s0) && u != v
    requires Leads(s0, before, r, View(Quiet(Only(u)), Quiet(Only(v)), PilotRoom.AfterJoin(PilotRoom.Empty, v, false, 1)))
    ensures Runs(s0, steps) && QuietlyMissing(Exec(s0, steps), r, u)
  {
    var st := PilotRoom.AfterJoin(PilotRoom.Empty, v, false, 1);
    steps := ThenPushes(s0, before, r, View(Quiet(Only(u)), Quiet(Only(v)), st), 0, u);
    TaughtBy(r, u, v, st);
    steps := ThenLearns(s0, steps, r, View(Side(Only(u), [Push(r, u)], []), Quiet(Only(v)), st), 0, u);
    steps := Heard(s0, steps, r, u, v, PilotRoom.AfterPush(st, u));
  }

  lemma {:induction false} JoinsUnconnected(s0: Sys, r: RoomId, u: UserId) returns (steps: seq<Step>)
    requires Initial(s0) && s0.nodes.Keys == {0, 1}
    ensures Runs(s0, steps) && Wired(Exec(s0, steps))
    ensures var s := Exec(s0, steps);
            && s.nodes.Keys == {0, 1} && s.links == map[] && s.rooms == map[]
            && s.nodes[0].conn == None && s.nodes[1].conn == None
            && Users(s, 0, r) == SfuRoom.AfterUserJoin(map[], u, false) && Users(s, 1, r) == map[]
  {
    assert 0 in s0.nodes.Keys && 1 in s0.nodes.Keys;
    InitialInv(s0);
    steps := [UserJoin(0, r, u, false)];
    ExecSnoc(s0, [], UserJoin(0, r, u, false));
    RunKeeps(s0, steps);
    assert [] + steps == steps;
    assert Exec(s0, steps).nodes.Keys == s0.nodes.Keys;
  }

  /** A user joins while its node is not connected, so that the center learns of it only
      from a push; a node that hears of the push does not know the user. */
  lemma {:induction false} PushDoesNotAnnounce(s0: Sys, r: RoomId, u: UserId, v: UserId) returns (steps: seq<Step>)
    requires Initial(s0) && s0.nodes.Keys == {0, 1} && u != v
    ensures Runs(s0, steps) && QuietlyMissing(Exec(s0, steps), r, u)
  {
    steps := JoinsUnconnected(s0, r, u);
    FirstListing(u, 0);
    steps := Connected(s0, steps, r, Only(u));
    steps := FirstJoin(s0, steps, r, View(Quiet(Only(u)), Quiet(Nobody), PilotRoom.Empty), 1, v);
    steps := Pushed(s0, steps, r, u, v);
  }
}
