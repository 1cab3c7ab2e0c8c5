/** Names and messages of the cluster: the SFU nodes and the pilot center that
    joins them.  User names and pusher descriptions are not modelled; a message keeps
    the room and the user ids it is about. */
module ClusterBase {
  datatype RoomId = RoomId(text: string)
  datatype UserId = UserId(text: string)
  type NodeId = nat
  type SessionId = nat  // the center's peer name of one websocket connection

  /** From a node to the center. */
  datatype Up =
    | Join(room: RoomId, user: UserId, audience: bool)
    | Leave(room: RoomId, user: UserId)
    | Disconnect(room: RoomId, user: UserId)
    | Push(room: RoomId, user: UserId)
    | Reconnect(room: RoomId, user: UserId)

  /** From the center to a node; `Joined` is the response to a join request. */
  datatype Down =
    | Joined(room: RoomId, users: set<UserId>)
    | NewUser(room: RoomId, user: UserId)
    | UserLeft(room: RoomId, user: UserId)
    | UserGone(room: RoomId, user: UserId)
    | NewPusher(room: RoomId, user: UserId)
}

/** A room of the pilot center. */
module PilotRoom {
  import opened Common
  import opened ClusterBase

  datatype User = User(audience: bool, session: Option<SessionId>)

  datatype State = State(users: map<UserId, User>, sessions: set<SessionId>)

  const Empty := State(map[], {})

  /** The sessions that a broadcast on behalf of `u` reaches. */
  function Recipients(st: State, u: UserId): set<SessionId> {
    if u in st.users && st.users[u].session.Some? then st.sessions - {st.users[u].session.value} else st.sessions
  }

  /** The users that the response to a join of `u` lists. */
  function Listing(st: State, u: UserId): set<UserId> {
    set v | v in st.users && v != u && !st.users[v].audience
  }

  function AfterJoin(st: State, u: UserId, audience: bool, s: SessionId): State {
    State(st.users[u := User(audience, Some(s))], st.sessions + {s})
  }

  function AfterLeave(st: State, u: UserId): State {
    st.(users := st.users - {u})
  }

  function AfterDisconnect(st: State, u: UserId, s: SessionId): State {
    if u in st.users && st.users[u].session == Some(s)
    then st.(users := st.users[u := st.users[u].(session := None)])
    else st
  }

  function AfterPush(st: State, u: UserId): State {
    if u in st.users then st else st.(users := st.users[u := User(false, None)])
  }

  /** A closing session that represents `ids` here drops out of the room, and of
      those users the ones without another session go with it. */
  function AfterClose(st: State, ids: set<UserId>, s: SessionId): State {
    State(map u | u in st.users && !(u in ids && st.users[u].session in {None, Some(s)}) :: st.users[u],
          if ids == {} then st.sessions else st.sessions - {s})
  }

  /** `sent` lists exactly the sessions of `to`, each once. */
  ghost predicate Once(sent: seq<SessionId>, to: set<SessionId>) {
    && (forall s :: s in sent <==> s in to)
    && (forall i, j :: 0 <= i < j < |sent| ==> sent[i] != sent[j])
  }

  class Room {
    var users: map<UserId, User>
    var sessions: set<SessionId>

    function View(): State
      reads this
    {
      State(users, sessions)
    }

    constructor ()
      ensures View() == Empty
    {
      users, sessions := map[], {};
    }

    /** Sends to every registered session but that of `u`, in no particular order. */
    method BroadcastExceptUser(u: UserId) returns (sent: seq<SessionId>)
      ensures Once(sent, Recipients(View(), u))
    {
      var excluded := if u in users then users[u].session else None;
      sent := [];
      var rest := sessions;
      while rest != {}
        invariant rest <= sessions
        invariant Once(sent, Recipients(View(), u) - rest)
        decreases rest
      {
        var s :| s in rest;
        rest := rest - {s};
        if Some(s) != excluded {
          sent := sent + [s];
        }
      }
    }

    /** Registers the user and the session, announces the user unless it only listens,
        and lists the others that do not only listen. */
    method HandleJoin(u: UserId, audience: bool, s: SessionId) returns (told: seq<SessionId>, listing: set<UserId>)
      modifies this
      ensures View() == AfterJoin(old(View()), u, audience, s)
      ensures Once(told, if audience then {} else View().sessions - {s})
      ensures users == old(users)[u := User(audience, Some(s))] && sessions == old(sessions) + {s}
      ensures listing == set v | v in old(users) && v != u && !old(users)[v].audience
    {
      if u !in users {
        users := users[u := User(audience, None)];
      } else {
        users := users[u := users[u].(audience := audience)];
      }
      users := users[u := users[u].(session := Some(s))];
      sessions := sessions + {s};
      told := [];
      if !audience {
        told := BroadcastExceptUser(u);
      }
      listing := {};
      var rest := users.Keys;
      while rest != {}
        invariant rest <= users.Keys
        invariant listing == set v | v in users && v !in rest && v != u && !users[v].audience
        decreases rest
      {
        var v :| v in rest;
        rest := rest - {v};
        if v != u && !users[v].audience {
          listing := listing + {v};
        }
      }
    }

    /** Tells the others and forgets the user; an unknown user is ignored. */
    method HandleUserLeave(u: UserId) returns (told: seq<SessionId>)
      modifies this
      ensures View() == AfterLeave(old(View()), u)
      ensures users == old(users) - {u} && sessions == old(sessions)
      ensures Once(told, set t | t in old(sessions) && u in old(users) && old(users)[u].session != Some(t))
    {
      told := [];
      if u !in users {
        assert users - {u} == users;
        return;
      }
      told := BroadcastExceptUser(u);
      users := users - {u};
    }

    /** Tells the others and unbinds the user from the session it came from. */
    method HandleUserDisconnect(u: UserId, s: SessionId) returns (told: seq<SessionId>)
      modifies this
      ensures View() == AfterDisconnect(old(View()), u, s)
      ensures users == if u in old(users) && old(users)[u].session == Some(s)
                       then old(users)[u := User(old(users)[u].audience, None)]
                       else old(users)
      ensures sessions == old(sessions)
      ensures Once(told, set t | t in old(sessions) && u in old(users) && old(users)[u].session != Some(t))
    {
      told := [];
      if u !in users {
        return;
      }
      told := BroadcastExceptUser(u);
      if users[u].session == Some(s) {
        users := users[u := users[u].(session := None)];
      }
    }

    /** A push adds its user if the center does not know it, without announcing it as
        a new user; the others only hear of the pusher. */
    method HandlePush(u: UserId) returns (told: seq<SessionId>)
      modifies this
      ensures View() == AfterPush(old(View()), u)
      ensures users == if u in old(users) then old(users) else old(users)[u := User(false, None)]
      ensures sessions == old(sessions)
      ensures Once(told, set t | t in old(sessions) && !(u in old(users) && old(users)[u].session == Some(t)))
    {
      if u !in users {
        users := users[u := User(false, None)];
      }
      told := BroadcastExceptUser(u);
    }

    /** The part of closing a session that concerns this room, for the users `ids` that
        the session represents here. */
    method CloseSession(ids: set<UserId>, s: SessionId)
      modifies this
      ensures View() == AfterClose(old(View()), ids, s)
      ensures forall u :: u in old(users) ==> (u in users <==> !(u in ids && old(users)[u].session in {None, Some(s)}))
      ensures forall u :: u in users ==> u in old(users) && users[u] == old(users)[u]
      ensures sessions == if ids == {} then old(sessions) else old(sessions) - {s}
    {
      var rest := ids;
      while rest != {}
        invariant rest <= ids
        invariant View() == AfterClose(old(View()), ids - rest, s)
        decreases rest
      {
        var u :| u in rest;
        ghost var before := View();
        rest := rest - {u};
        if u in users && users[u].session == Some(s) {
          users := users[u := users[u].(session := None)];
        }
        sessions := sessions - {s};
        if u !in users || users[u].session == None {
          users := users - {u};
        }
        assert ids - rest == ids - (rest + {u}) + {u};
        assert View().users == AfterClose(old(View()), ids - rest, s).users;
      }
      assert ids - rest == ids;
    }
  }
}
