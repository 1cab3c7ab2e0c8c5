/** A room of an SFU node: its local users and the remote users it has heard of. */
module SfuRoom {
  import opened Common
  import opened ClusterBase

  /** `online`: the user has a callback to notify; it is taken away on disconnect. */
  datatype User = User(remote: bool, audience: bool, online: bool)

  type Users = map<UserId, User>

  function AfterUserJoin(us: Users, u: UserId, audience: bool): Users {
    if u in us then us[u := us[u].(audience := audience)] else us[u := User(false, audience, true)]
  }

  /** A user without a signalling client: a WHIP publisher, or the voice agent, which
      replaces whatever user had its id. */
  function AfterWhipJoin(us: Users, u: UserId): Users {
    if u in us then us else us[u := User(false, false, false)]
  }

  function AfterAgentJoin(us: Users, u: UserId): Users {
    us[u := User(false, false, false)]
  }

  function AfterNewUser(us: Users, u: UserId): Users {
    if u in us then us else us[u := User(true, false, false)]
  }

  function AfterJoined(us: Users, listed: set<UserId>): Users {
    map u | u in us.Keys + listed :: if u in us then us[u] else User(true, false, false)
  }

  function AfterNewPusher(us: Users, u: UserId): Users {
    if u in us then us[u := us[u].(remote := true)] else us
  }

  function AfterDisconnect(us: Users, u: UserId): Users {
    if u in us then us[u := us[u].(online := false)] else us
  }

  /** The local clients that a notification about `u` reaches. */
  function Audience(us: Users, u: UserId): set<UserId> {
    set v | v in us && v != u && !us[v].remote && us[v].online
  }

  lemma {:induction false} AfterOneMore(was: Users, done: seq<UserId>, u: UserId)
    ensures var us, more := AfterJoined(was, set v | v in done), done + [u];
            AfterJoined(was, set v | v in more) == if u in us then us else us[u := User(true, false, false)]
  {
  }

  class Room {
    const room: RoomId
    var users: Users
    var agentJoined: bool

    constructor (room: RoomId)
      ensures this.room == room && users == map[] && !agentJoined
    {
      this.room := room;
      users, agentJoined := map[], false;
    }

    /** The loop that notifies the other local clients of something about `u`. */
    method Notify(u: UserId) returns (told: set<UserId>)
      requires u in users
      ensures told == Audience(users, u)
    {
      told := {};
      var rest := users.Keys;
      while rest != {}
        invariant rest <= users.Keys
        invariant told == set v | v in users && v !in rest && v != u && !users[v].remote && users[v].online
        decreases rest
      {
        var v :| v in rest;
        rest := rest - {v};
        if v != u && !users[v].remote && users[v].online {
          told := told + {v};
        }
      }
    }

    /** The users listed in a response: all others, or all others that do not just listen. */
    method ListOthers(u: UserId, listeners: bool) returns (listed: set<UserId>)
      ensures listed == set v | v in users && v != u && (listeners || !users[v].audience)
    {
      listed := {};
      var rest := users.Keys;
      while rest != {}
        invariant rest <= users.Keys
        invariant listed == set v | v in users && v !in rest && v != u && (listeners || !users[v].audience)
        decreases rest
      {
        var v :| v in rest;
        rest := rest - {v};
        if v != u && (listeners || !users[v].audience) {
          listed := listed + {v};
        }
      }
    }

    /** A client joins. A known user only reconnects: the others are told so, and the center.
        A new one is reported to the center and, unless it just listens, to the others. */
    method UserJoin(u: UserId, audience: bool) returns (up: Up, told: set<UserId>, listed: set<UserId>)
      modifies this`users
      ensures users == AfterUserJoin(old(users), u, audience)
      ensures users == if u in old(users) then old(users)[u := old(users)[u].(audience := audience)]
                       else old(users)[u := User(false, audience, true)]
      ensures up == if u in old(users) then Reconnect(room, u) else Join(room, u, audience)
      ensures told == set v | v in old(users) && v != u && !old(users)[v].remote && old(users)[v].online
                              && (u in old(users) || !audience)
      ensures listed == set v | v in old(users) && v != u && (u in old(users) || !old(users)[v].audience)
    {
      told := {};
      if u in users {
        users := users[u := users[u].(audience := audience)];
        told := Notify(u);
        up := Reconnect(room, u);
        listed := ListOthers(u, true);
      } else {
        users := users[u := User(false, audience, true)];
        listed := ListOthers(u, false);
        up := Join(room, u, audience);
        if !audience {
          told := Notify(u);
        }
      }
    }

    /** A WHIP publisher joins at the center and is announced, whether or not its id is
        already in use. */
    method WhipUserJoin(u: UserId) returns (up: Up, told: set<UserId>)
      modifies this`users
      ensures users == AfterWhipJoin(old(users), u)
      ensures users == if u in old(users) then old(users) else old(users)[u := User(false, false, false)]
      ensures up == Join(room, u, u in old(users) && old(users)[u].audience)
      ensures told == set v | v in old(users) && v != u && !old(users)[v].remote && old(users)[v].online
    {
      if u !in users {
        users := users[u := User(false, false, false)];
      }
      up := Join(room, u, users[u].audience);
      told := Notify(u);
    }

    /** The voice agent joins once; it replaces whatever user has its id. */
    method VoiceAgentAiJoin(u: UserId) returns (up: Option<Up>, told: set<UserId>)
      modifies this
      ensures agentJoined
      ensures if old(agentJoined) then users == old(users) && up == None && told == {}
              else
                && users == AfterAgentJoin(old(users), u) == old(users)[u := User(false, false, false)]
                && up == Some(Join(room, u, false))
                && told == set v | v in old(users) && v != u && !old(users)[v].remote && old(users)[v].online
    {
      if agentJoined {
        return None, {};
      }
      users := users[u := User(false, false, false)];
      up := Some(Join(room, u, false));
      told := Notify(u);
      agentJoined := true;
    }

    /** `newUser` from the center: a user that is already there is not touched and not
        announced again. */
    method HandleNewUser(u: UserId) returns (told: set<UserId>)
      modifies this`users
      ensures users == AfterNewUser(old(users), u)
      ensures users == if u in old(users) then old(users) else old(users)[u := User(true, false, false)]
      ensures told == set v | v in old(users) && !old(users)[v].remote && old(users)[v].online && u !in old(users)
    {
      if u in users {
        return {};
      }
      users := users[u := User(true, false, false)];
      told := Notify(u);
    }

    /** The response to a join: inserts the listed users that are new, and announces each of
        them to the local clients. */
    method HandleJoined(listed: seq<UserId>) returns (announced: seq<UserId>, told: seq<set<UserId>>)
      modifies this`users
      ensures users == AfterJoined(old(users), set u | u in listed)
      ensures forall u :: u in users <==> u in old(users) || u in listed
      ensures forall u :: u in users ==> users[u] == if u in old(users) then old(users)[u] else User(true, false, false)
      ensures forall u :: u in announced <==> u in listed && u !in old(users)
      ensures forall i, j :: 0 <= i < j < |announced| ==> announced[i] != announced[j]
      ensures |told| == |announced|
      ensures forall i :: 0 <= i < |told| ==>
                told[i] == set v | v in old(users) && !old(users)[v].remote && old(users)[v].online
    {
      announced, told := [], [];
      ghost var local := set v | v in users && !users[v].remote && users[v].online;
      for i := 0 to |listed|
        invariant users == AfterJoined(old(users), set u | u in listed[..i])
        invariant forall u :: u in announced <==> u in listed[..i] && u !in old(users)
        invariant forall i, j :: 0 <= i < j < |announced| ==> announced[i] != announced[j]
        invariant |told| == |announced|
        invariant forall i :: 0 <= i < |told| ==> told[i] == local
      {
        var u := listed[i];
        assert listed[..i + 1] == listed[..i] + [u];
        AfterOneMore(old(users), listed[..i], u);
        if u !in users {
          users := users[u := User(true, false, false)];
          var reached := Notify(u);
          announced, told := announced + [u], told + [reached];
        }
      }
      assert listed[..|listed|] == listed;
    }

    /** News of a pusher marks its user as remote; it reaches all with a client, however they
        are marked. */
    method HandleNewPusher(u: UserId) returns (told: set<UserId>)
      modifies this`users
      ensures users == AfterNewPusher(old(users), u)
      ensures users == if u in old(users) then old(users)[u := old(users)[u].(remote := true)] else old(users)
      ensures told == set v | v in old(users) && v != u && old(users)[v].online && u in old(users)
    {
      told := {};
      if u !in users {
        return;
      }
      users := users[u := users[u].(remote := true)];
      var rest := users.Keys;
      while rest != {}
        invariant rest <= users.Keys
        invariant told == set v | v in users && v !in rest && v != u && users[v].online
        decreases rest
      {
        var v :| v in rest;
        rest := rest - {v};
        if v != u && users[v].online {
          told := told + {v};
        }
      }
    }

    /** A client's connection is gone: the user stays, unreachable, and the others are told. */
    method DisconnectUser(u: UserId) returns (up: Option<Up>, told: set<UserId>)
      modifies this`users
      ensures users == AfterDisconnect(old(users), u)
      ensures users == if u in old(users) then old(users)[u := old(users)[u].(online := false)] else old(users)
      ensures up == if u in old(users) then Some(Disconnect(room, u)) else None
      ensures told == set v | v in old(users) && v != u && !old(users)[v].remote && old(users)[v].online && u in old(users)
    {
      if u !in users {
        return None, {};
      }
      users := users[u := users[u].(online := false)];
      told := Notify(u);
      up := Some(Disconnect(room, u));
    }

    /** The user part of the timer: every local user whose heartbeat is too old is
        reported as gone to the center and erased; remote users are never erased. */
    method OnTimer(alive: set<UserId>) returns (ups: seq<Up>)
      modifies this`users
      ensures users == map u | u in old(users) && (old(users)[u].remote || u in alive) :: old(users)[u]
      ensures forall m :: m in ups <==>
                m.Leave? && m.room == room && m.user in old(users) && !old(users)[m.user].remote && m.user !in alive
      ensures forall i, j :: 0 <= i < j < |ups| ==> ups[i] != ups[j]
    {
      ups := [];
      var rest := set u | u in users && !users[u].remote && u !in alive;
      ghost var dead := rest;
      while rest != {}
        invariant rest <= dead
        invariant users == old(users) - (dead - rest)
        invariant forall m :: m in ups <==> m.Leave? && m.room == room && m.user in dead - rest
        invariant forall i, j :: 0 <= i < j < |ups| ==> ups[i] != ups[j]
        decreases rest
      {
        var u :| u in rest;
        rest := rest - {u};
        ups := ups + [Leave(room, u)];
        users := users - {u};
      }
    }
  }
}
