/** ConnectionManager: the WebSocket room table. */
module Rooms {
  import opened Prelude

  type RoomId = string
  type UserId = string
  type Socket = int
  type Room = map<UserId, Socket>
  type Table = map<RoomId, Room>

  const NOBODY: Room := map[]

  /** The members of a room; a room that is not stored has none. */
  function Members(rooms: Table, room: RoomId): Room {
    if room in rooms then rooms[room] else NOBODY
  }

  /** No empty room is ever stored. */
  ghost predicate NoEmptyRoom(rooms: Table) {
    forall r :: r in rooms ==> rooms[r] != NOBODY
  }

  /** The members left when a send to `user` has been tried: all, or all but the user if it failed. */
  function AfterSend(members: Room, user: UserId, broken: set<Socket>): Room {
    if user in members && members[user] in broken then members - {user} else members
  }

  /** Nobody leaves but the user, and the user only if the send failed; nobody's socket changes. */
  lemma AfterSendIff(members: Room, user: UserId, broken: set<Socket>, u: UserId)
    ensures var left := AfterSend(members, user, broken);
            && (u in left <==> u in members && !(u == user && members[u] in broken))
            && (u in left ==> left[u] == members[u])
  {
  }

  /** Without empty rooms, the members of every room determine the whole table: the contracts
      below, which speak of members, leave nothing about the table open. */
  lemma MembersDetermineTable(a: Table, b: Table)
    requires NoEmptyRoom(a) && NoEmptyRoom(b)
    requires forall r :: Members(a, r) == Members(b, r)
    ensures a == b
  {
    forall r ensures r in a <==> r in b {
      assert Members(a, r) == Members(b, r);
    }
    forall r | r in a ensures a[r] == b[r] {
      assert Members(a, r) == Members(b, r);
    }
  }

  /** A transmission: to which user, in which room, over which socket. */
  datatype Send = Send(room: RoomId, user: UserId, socket: Socket)

  ghost predicate OncePerMember(sends: seq<Send>) {
    forall i, j :: 0 <= i < j < |sends| ==> sends[i] != sends[j]
  }

  /** The transmissions to the user in those of the rooms that hold the user, once each. */
  ghost predicate Reached(sends: seq<Send>, table: Table, rooms: set<RoomId>, user: UserId) {
    && OncePerMember(sends)
    && forall s :: s in sends <==>
         s.user == user && s.room in rooms && s.room in table && user in table[s.room] &&
           s.socket == table[s.room][user]
  }

  lemma ReachedOneMore(sends: seq<Send>, table: Table, rooms: set<RoomId>, user: UserId, room: RoomId)
    requires Reached(sends, table, rooms, user) && room in table && room !in rooms
    ensures var more := if user in table[room] then [Send(room, user, table[room][user])] else [];
            Reached(sends + more, table, rooms + {room}, user)
  {
  }

  class ConnectionManager {
    var rooms: Table
    /** Every transmission attempted so far, in order. */
    var sent: seq<Send>

    constructor ()
      ensures rooms == map[] && sent == [] && NoEmptyRoom(rooms)
    {
      rooms, sent := map[], [];
    }

    method Connect(socket: Socket, room: RoomId, user: UserId)
      requires NoEmptyRoom(rooms)
      modifies `rooms
      ensures NoEmptyRoom(rooms)
      ensures Members(rooms, room) == Members(old(rooms), room)[user := socket]
      ensures forall r :: r != room ==> Members(rooms, r) == Members(old(rooms), r)
    {
      if room !in rooms { rooms := rooms[room := NOBODY]; }
      rooms := rooms[room := rooms[room][user := socket]];
      assert user in rooms[room];
    }

    method Disconnect(room: RoomId, user: UserId)
      requires NoEmptyRoom(rooms)
      modifies `rooms
      ensures NoEmptyRoom(rooms)
      ensures Members(rooms, room) == Members(old(rooms), room) - {user}
      ensures forall r :: r != room ==> Members(rooms, r) == Members(old(rooms), r)
    {
      var members := if room in rooms then rooms[room] else NOBODY;
      members := members - {user};
      if room in rooms { rooms := rooms[room := members]; }
      if members == NOBODY {
        rooms := rooms - {room};
      }
    }

    /** `broken` are the sockets whose sends raise. */
    method Transmit(room: RoomId, user: UserId, socket: Socket, broken: set<Socket>) returns (ok: bool)
      modifies `sent
      ensures sent == old(sent) + [Send(room, user, socket)]
      ensures ok <==> socket !in broken
    {
      sent := sent + [Send(room, user, socket)];
      ok := socket !in broken;
    }

    /** One transmission; the user leaves the room if it fails. */
    method TransmitOrDrop(room: RoomId, user: UserId, socket: Socket, broken: set<Socket>)
      requires NoEmptyRoom(rooms)
      modifies this
      ensures NoEmptyRoom(rooms)
      ensures sent == old(sent) + [Send(room, user, socket)]
      ensures Members(rooms, room) ==
              if socket in broken then Members(old(rooms), room) - {user} else Members(old(rooms), room)
      ensures forall r :: r != room ==> Members(rooms, r) == Members(old(rooms), r)
    {
      var ok := Transmit(room, user, socket, broken);
      if !ok { Disconnect(room, user); }
    }

    method SendToUser(user: UserId, room: RoomId, broken: set<Socket>)
      requires NoEmptyRoom(rooms)
      modifies this
      ensures NoEmptyRoom(rooms)
      ensures var before := Members(old(rooms), room);
              && sent == old(sent) + (if user in before then [Send(room, user, before[user])] else [])
              && Members(rooms, room) == AfterSend(before, user, broken)
      ensures forall r :: r != room ==> Members(rooms, r) == Members(old(rooms), r)
    {
      var members := if room in rooms then rooms[room] else NOBODY;
      if user in members {
        TransmitOrDrop(room, user, members[user], broken);
      }
    }

    /** Tries every member but the excluded one, once, and collects those whose send failed. */
    method TransmitToMembers(room: RoomId, members: Room, exclude: Option<UserId>, broken: set<Socket>)
      returns (deadUsers: seq<UserId>)
      modifies `sent
      ensures |sent| >= |old(sent)| && sent[..|old(sent)|] == old(sent)
      ensures OncePerMember(sent[|old(sent)|..])
      ensures forall s :: s in sent[|old(sent)|..] <==>
              s.room == room && s.user in members && s.socket == members[s.user] && Some(s.user) != exclude
      ensures forall u :: u in deadUsers <==> u in members && Some(u) != exclude && members[u] in broken
    {
      deadUsers := [];
      var todo := members.Keys;
      ghost var mark := |sent|;
      while todo != {}
        invariant todo <= members.Keys
        invariant mark == |old(sent)| <= |sent| && sent[..mark] == old(sent)
        invariant OncePerMember(sent[mark..])
        invariant forall s :: s in sent[mark..] <==>
                  s.room == room && s.user in members.Keys - todo &&
                  s.socket == members[s.user] && Some(s.user) != exclude
        invariant forall u :: u in deadUsers <==> u in members.Keys - todo && Some(u) != exclude && members[u] in broken
        decreases todo
      {
        var user :| user in todo;
        ghost var sofar := sent[mark..];
        todo := todo - {user};
        if Some(user) != exclude {
          var ok := Transmit(room, user, members[user], broken);
          assert sent[mark..] == sofar + [Send(room, user, members[user])];
          assert Send(room, user, members[user]) !in sofar;
          if !ok { deadUsers := deadUsers + [user]; }
        }
      }
    }

    method DisconnectAll(room: RoomId, deadUsers: seq<UserId>)
      requires NoEmptyRoom(rooms)
      modifies `rooms
      ensures NoEmptyRoom(rooms)
      ensures Members(rooms, room) == map u | u in Members(old(rooms), room) && u !in deadUsers ::
              Members(old(rooms), room)[u]
      ensures forall r :: r != room ==> Members(rooms, r) == Members(old(rooms), r)
    {
      for i := 0 to |deadUsers|
        invariant NoEmptyRoom(rooms)
        invariant Members(rooms, room) == map u | u in Members(old(rooms), room) && u !in deadUsers[..i] ::
                  Members(old(rooms), room)[u]
        invariant forall r :: r != room ==> Members(rooms, r) == Members(old(rooms), r)
      {
        Disconnect(room, deadUsers[i]);
      }
      assert deadUsers[..|deadUsers|] == deadUsers;
    }

    /** A broadcast tries each non-excluded member exactly once and then removes exactly those whose
        send failed; other rooms are untouched. */
    method BroadcastToRoom(room: RoomId, exclude: Option<UserId>, broken: set<Socket>)
      requires NoEmptyRoom(rooms)
      modifies this
      ensures NoEmptyRoom(rooms)
      ensures |sent| >= |old(sent)| && sent[..|old(sent)|] == old(sent)
      ensures OncePerMember(sent[|old(sent)|..])
      ensures var before := Members(old(rooms), room);
              && (forall s :: s in sent[|old(sent)|..] <==>
                 s.room == room && s.user in before && s.socket == before[s.user] && Some(s.user) != exclude)
              && Members(rooms, room) == map u | u in before && (Some(u) == exclude || before[u] !in broken) ::
                 before[u]
      ensures forall r :: r != room ==> Members(rooms, r) == Members(old(rooms), r)
    {
      var members := if room in rooms then rooms[room] else NOBODY;
      var deadUsers := TransmitToMembers(room, members, exclude, broken);
      DisconnectAll(room, deadUsers);
    }

    /** One round of the loop below: tries the user in a room of the snapshot. */
    method SendFromSnapshot(room: RoomId, members: Room, user: UserId, broken: set<Socket>)
      requires NoEmptyRoom(rooms) && Members(rooms, room) == members
      modifies this
      ensures NoEmptyRoom(rooms)
      ensures sent == old(sent) + if user in members then [Send(room, user, members[user])] else []
      ensures Members(rooms, room) == AfterSend(members, user, broken)
      ensures forall r :: r != room ==> Members(rooms, r) == Members(old(rooms), r)
    {
      if user in members {
        TransmitOrDrop(room, user, members[user], broken);
      }
    }

    /** Reaches the user in exactly the rooms that held the user, once each, and removes the user
        from exactly those where the send failed. */
    method SendToUserAllRooms(user: UserId, broken: set<Socket>)
      requires NoEmptyRoom(rooms)
      modifies this
      ensures NoEmptyRoom(rooms)
      ensures |sent| >= |old(sent)| && sent[..|old(sent)|] == old(sent)
      ensures OncePerMember(sent[|old(sent)|..])
      ensures forall s :: s in sent[|old(sent)|..] <==>
              s.user == user && s.room in old(rooms) &&
              user in old(rooms)[s.room] && s.socket == old(rooms)[s.room][user]
      ensures forall r :: Members(rooms, r) == AfterSend(Members(old(rooms), r), user, broken)
    {
      var items := rooms;
      var todo := items.Keys;
      ghost var mark := |sent|;
      while todo != {}
        invariant todo <= items.Keys && NoEmptyRoom(rooms)
        invariant mark == |old(sent)| <= |sent| && sent[..mark] == old(sent)
        invariant Reached(sent[mark..], items, items.Keys - todo, user)
        invariant forall r :: r in todo ==> Members(rooms, r) == Members(items, r)
        invariant forall r :: r !in todo ==> Members(rooms, r) == AfterSend(Members(items, r), user, broken)
        decreases todo
      {
        var room :| room in todo;
        ghost var sofar, done := sent[mark..], items.Keys - todo;
        todo := todo - {room};
        SendFromSnapshot(room, items[room], user, broken);
        ReachedOneMore(sofar, items, done, user, room);
        assert sent[mark..] == sofar + if user in items[room] then [Send(room, user, items[room][user])] else [];
        assert items.Keys - todo == done + {room};
      }
    }

    /** The users of a room, each listed once. */
    method GetRoomUsers(room: RoomId) returns (users: seq<UserId>)
      ensures forall u :: u in users <==> u in Members(rooms, room)
      ensures |users| == |Members(rooms, room)|
    {
      var members := if room in rooms then rooms[room] else NOBODY;
      users := [];
      var todo := members.Keys;
      while todo != {}
        invariant todo <= members.Keys
        invariant forall u :: u in users <==> u in members.Keys - todo
        invariant |users| + |todo| == |members.Keys|
        decreases todo
      {
        var u :| u in todo;
        users := users + [u];
        todo := todo - {u};
      }
      assert |members| == |members.Keys|;
    }
  }
}
