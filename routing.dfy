/**
 * Outgoing Socket.IO traffic and room membership. Every `emit` of the
 * server is recorded as an `Emit(target, event, payload)`; a broadcast is
 * recorded once, with a target that says who it reaches. Rooms map a room
 * name (a group id) to the sockets joined to it.
 */
module Routing {
  import opened Wrappers
  import opened Text
  import opened Messages
  import opened Sessions
  import opened UserStore

  /** Who an emit reaches. */
  datatype Target =
    | ToSocket(sid: SocketId)                       // socket.emit / io.to(sid).emit
    | BroadcastFrom(sid: SocketId)                  // socket.broadcast.emit: every connection but sid
    | ToAll                                         // io.emit
    | ToRoomExcept(room: string, except: SocketId)  // socket.broadcast.to(room).emit

  /** The event names the core emits. */
  datatype Event =
    | RegisterResponse | LoginResponse | Registered | UsersList | UserConnected
    | ReceiveMessage | MessageSent | GroupCreated | NewGroup | ReceiveGroupMessage | UserDisconnected

  /** What an emit carries. */
  datatype Payload =
    | Outcome(success: bool, text: string)
    | LoginGranted(username: string, avatar: string, text: string)
    | SessionInfo(session: Session)
    | SessionList(sessions: seq<Session>)
    | StoredUsers(users: seq<UserRecord>)
    | MessageInfo(message: Message)
    | GroupInfo(group: Group)
    | Departure(username: string, lastSeen: int)

  datatype Emit = Emit(target: Target, event: Event, payload: Payload)

  /** Socket.IO room membership. */
  type Rooms = map<string, set<SocketId>>

  function Members(rooms: Rooms, room: string): set<SocketId> {
    if room in rooms then rooms[room] else {}
  }

  /** `socket.join(room)` (server/server.js:457, 470, 484). */
  function Join(rooms: Rooms, room: string, sid: SocketId): (r: Rooms)
    ensures Members(r, room) == Members(rooms, room) + {sid}
    ensures forall g :: g != room ==> Members(r, g) == Members(rooms, g)
  {
    rooms[room := Members(rooms, room) + {sid}]
  }

  /** Joining a room twice is joining it once (`join-group` is sent redundantly by clients). */
  lemma JoinIdempotent(rooms: Rooms, room: string, sid: SocketId)
    ensures Join(Join(rooms, room, sid), room, sid) == Join(rooms, room, sid)
  {
  }

  /**
   * Whether an emit to `t` reaches the live connection `x`, given the rooms
   * at the time of the emit.
   */
  predicate Reaches(t: Target, rooms: Rooms, x: SocketId) {
    match t
    case ToSocket(s) => x == s
    case BroadcastFrom(s) => x != s
    case ToAll => true
    case ToRoomExcept(g, s) => x in Members(rooms, g) && x != s
  }

  /** Number of emits of `event` among `emits` that reach `x`. */
  function Copies(emits: seq<Emit>, rooms: Rooms, event: Event, x: SocketId): (n: nat)
    ensures n <= |emits|
  {
    if emits == [] then 0
    else (if emits[0].event == event && Reaches(emits[0].target, rooms, x) then 1 else 0)
         + Copies(emits[1..], rooms, event, x)
  }

  /** Number of emits of `event` among `emits`, whoever they reach. */
  function CountEvent(emits: seq<Emit>, event: Event): (n: nat)
    ensures n <= |emits|
  {
    if emits == [] then 0
    else (if emits[0].event == event then 1 else 0) + CountEvent(emits[1..], event)
  }

  lemma {:induction false} CopiesAppend(a: seq<Emit>, b: seq<Emit>, rooms: Rooms, event: Event, x: SocketId)
    ensures Copies(a + b, rooms, event, x) == Copies(a, rooms, event, x) + Copies(b, rooms, event, x)
  {
    if a != [] {
      assert (a + b)[1..] == a[1..] + b;
      CopiesAppend(a[1..], b, rooms, event, x);
    } else {
      assert a + b == b;
    }
  }

  /**
   * The answers to `register` for the newly installed `session`
   * (server/server.js:355-372): `registered` and the `users-list` of the
   * other sessions to the new socket, and `user-connected` to every other
   * connection.
   */
  function Welcome(registry: seq<Session>, session: Session): seq<Emit> {
    [Emit(ToSocket(session.id), Registered, SessionInfo(session)),
     Emit(ToSocket(session.id), UsersList, SessionList(OthersOnline(registry, session.username))),
     Emit(BroadcastFrom(session.id), UserConnected, SessionInfo(session))]
  }

  /**
   * `register` addresses only the new socket: every other connection, the
   * evicted one included, gets exactly one `user-connected` and nothing
   * else, and the new socket gets one `registered` and one `users-list`.
   */
  lemma WelcomeSpec(registry: seq<Session>, session: Session, rooms: Rooms, x: SocketId)
    ensures var out := Welcome(registry, session);
      && Copies(out, rooms, UserConnected, x) == (if x == session.id then 0 else 1)
      && Copies(out, rooms, Registered, x) == (if x == session.id then 1 else 0)
      && Copies(out, rooms, UsersList, x) == (if x == session.id then 1 else 0)
      && (x != session.id ==> forall ev :: ev != UserConnected ==> Copies(out, rooms, ev, x) == 0)
  {
    var out := Welcome(registry, session);
    var e1, e2, e3 := out[0], out[1], out[2];
    assert out == [e1] + ([e2] + ([e3] + []));
    forall ev
      ensures Copies(out, rooms, ev, x) ==
        (if ev == Registered && x == session.id then 1 else 0)
        + (if ev == UsersList && x == session.id then 1 else 0)
        + (if ev == UserConnected && x != session.id then 1 else 0)
    {
      CopiesCons(e1, [e2] + ([e3] + []), rooms, ev, x);
      CopiesCons(e2, [e3] + [], rooms, ev, x);
      CopiesCons(e3, [], rooms, ev, x);
    }
  }

  /**
   * The emits of `private-message` from socket `sid` (server/server.js:409-423):
   * `receive-message` to the first session whose username matches the
   * recipient ignoring case, if any, then `message-sent` back to the sender.
   */
  function PrivateFanOut(sessions: seq<Session>, sid: SocketId, m: Message): seq<Emit> {
    (match FindByNameIgnoringCase(sessions, m.to)
     case Some(i) => [Emit(ToSocket(sessions[i].id), ReceiveMessage, MessageInfo(m))]
     case None => [])
    + [Emit(ToSocket(sid), MessageSent, MessageInfo(m))]
  }

  /**
   * A private message is delivered at most once: exactly once, to the first
   * session matching the recipient ignoring case, when there is one, and
   * not at all otherwise; the sender gets exactly one `message-sent`.
   */
  lemma PrivateFanOutSpec(sessions: seq<Session>, sid: SocketId, m: Message, rooms: Rooms)
    ensures var out := PrivateFanOut(sessions, sid, m);
      && |out| <= 2
      && CountEvent(out, MessageSent) == 1
      && Copies(out, rooms, MessageSent, sid) == 1
      && CountEvent(out, ReceiveMessage) == (if exists x :: x in sessions && SameIgnoringCase(x.username, m.to) then 1 else 0)
      && (forall e :: e in out && e.event == ReceiveMessage ==>
            exists i :: (0 <= i < |sessions| && e.target == ToSocket(sessions[i].id) &&
                         SameIgnoringCase(sessions[i].username, m.to) &&
                         forall j :: 0 <= j < i ==> !SameIgnoringCase(sessions[j].username, m.to)))
  {
    var out := PrivateFanOut(sessions, sid, m);
    match FindByNameIgnoringCase(sessions, m.to)
    case Some(i) =>
      assert sessions[i] in sessions;
      assert out[1..][1..] == [];
    case None =>
      assert out[1..] == [];
  }

  /**
   * The emits of `group-message` from socket `sid` (server/server.js:509-513):
   * a broadcast to the room except the sender, then one explicit copy to the
   * sender.
   */
  function GroupFanOut(groupId: string, sid: SocketId, m: Message): seq<Emit> {
    [Emit(ToRoomExcept(groupId, sid), ReceiveGroupMessage, MessageInfo(m)),
     Emit(ToSocket(sid), ReceiveGroupMessage, MessageInfo(m))]
  }

  /**
   * Every member of the room and the sender receive exactly one copy of a
   * group message, even when the sender is not in the room; nobody else
   * receives one.
   */
  lemma GroupFanOutExactlyOnce(rooms: Rooms, groupId: string, sid: SocketId, m: Message, x: SocketId)
    ensures Copies(GroupFanOut(groupId, sid, m), rooms, ReceiveGroupMessage, x)
         == if x == sid || x in Members(rooms, groupId) then 1 else 0
  {
    var out := GroupFanOut(groupId, sid, m);
    assert out[1..][1..] == [];
  }

  /** The socket of the first session matching `member` ignoring case, if any. */
  function LiveSocket(sessions: seq<Session>, member: string): Option<SocketId> {
    match FindByNameIgnoringCase(sessions, member)
    case Some(i) => Some(sessions[i].id)
    case None => None
  }

  /** For each listed member, in order, the socket of its live session if it has one. */
  function LiveSockets(sessions: seq<Session>, members: seq<string>): (r: seq<Option<SocketId>>)
    ensures |r| == |members|
    ensures forall k :: 0 <= k < |members| ==> r[k] == LiveSocket(sessions, members[k])
  {
    if members == [] then [] else [LiveSocket(sessions, members[0])] + LiveSockets(sessions, members[1..])
  }

  /** One `new-group` emit to each live socket in `live`, in order. */
  function Notices(live: seq<Option<SocketId>>, g: Group): (r: seq<Emit>)
    ensures |r| <= |live|
    ensures forall e :: e in r ==> e.event == NewGroup && e.payload == GroupInfo(g) && e.target.ToSocket?
  {
    if live == [] then []
    else
      (match live[0]
       case Some(s) => [Emit(ToSocket(s), NewGroup, GroupInfo(g))]
       case None => [])
      + Notices(live[1..], g)
  }

  /** The `new-group` emits of `create-group`, one per listed member that has a live session (server/server.js:463-475). */
  function NewGroupNotices(sessions: seq<Session>, members: seq<string>, g: Group): seq<Emit> {
    Notices(LiveSockets(sessions, members), g)
  }

  /** The socket an optional live session contributes. */
  function Sockets(o: Option<SocketId>): (r: set<SocketId>)
    ensures o.None? <==> r == {}
    ensures forall x :: x in r <==> o == Some(x)
  {
    match o
    case Some(s) => {s}
    case None => {}
  }

  /** The sockets `create-group` joins to the room on behalf of the listed members. */
  function JoinedMembers(sessions: seq<Session>, members: seq<string>): set<SocketId> {
    set o | o in LiveSockets(sessions, members) && o.Some? :: o.value
  }

  lemma {:induction false} NoticesCount(live: seq<Option<SocketId>>, g: Group, rooms: Rooms, x: SocketId)
    ensures Copies(Notices(live, g), rooms, NewGroup, x) == multiset(live)[Some(x)]
  {
    if live != [] {
      var rest := Notices(live[1..], g);
      NoticesCount(live[1..], g, rooms, x);
      assert live == [live[0]] + live[1..];
      assert multiset(live)[Some(x)] == multiset([live[0]])[Some(x)] + multiset(live[1..])[Some(x)];
      match live[0]
      case Some(s) =>
        var e := Emit(ToSocket(s), NewGroup, GroupInfo(g));
        assert Notices(live, g) == [e] + rest;
        CopiesCons(e, rest, rooms, NewGroup, x);
      case None =>
        assert Notices(live, g) == rest;
    }
  }

  /** The copies in a batch are those of its first emit plus those of the rest. */
  lemma CopiesCons(e: Emit, rest: seq<Emit>, rooms: Rooms, event: Event, x: SocketId)
    ensures Copies([e] + rest, rooms, event, x) == (if e.event == event && Reaches(e.target, rooms, x) then 1 else 0) + Copies(rest, rooms, event, x)
  {
    assert ([e] + rest)[1..] == rest;
  }


  /** Extending the member list by one member adds at most one notice, at the end. */
  lemma {:induction false} NoticesSnoc(live: seq<Option<SocketId>>, o: Option<SocketId>, g: Group)
    ensures Notices(live + [o], g) == Notices(live, g) + (match o case Some(s) => [Emit(ToSocket(s), NewGroup, GroupInfo(g))] case None => [])
  {
    if live == [] {
      assert [o][1..] == [];
    } else {
      assert (live + [o])[1..] == live[1..] + [o];
      NoticesSnoc(live[1..], o, g);
    }
  }

  /**
   * A socket is sent `new-group` exactly as many times as it is the live
   * session of a listed member, and it is joined to the room exactly when
   * it is sent one. The creator is not skipped, so a creator who lists
   * itself and is online hears `new-group` as well as `group-created`.
   */
  lemma NewGroupNoticesSpec(sessions: seq<Session>, members: seq<string>, g: Group, rooms: Rooms, x: SocketId)
    ensures Copies(NewGroupNotices(sessions, members, g), rooms, NewGroup, x)
         == multiset(LiveSockets(sessions, members))[Some(x)]
    ensures x in JoinedMembers(sessions, members) <==> Copies(NewGroupNotices(sessions, members, g), rooms, NewGroup, x) > 0
    ensures x in JoinedMembers(sessions, members) <==>
            exists k :: 0 <= k < |members| && LiveSocket(sessions, members[k]) == Some(x)
  {
    var live := LiveSockets(sessions, members);
    NoticesCount(live, g, rooms, x);
    if x in JoinedMembers(sessions, members) {
      var o :| o in live && o.Some? && o.value == x;
    }
    if exists k :: 0 <= k < |members| && LiveSocket(sessions, members[k]) == Some(x) {
      var k :| 0 <= k < |members| && LiveSocket(sessions, members[k]) == Some(x);
      assert live[k] == Some(x);
    }
  }

  /** Joining one more listed member adds at most that member's live socket. */
  lemma JoinedMembersSnoc(sessions: seq<Session>, members: seq<string>, name: string)
    ensures JoinedMembers(sessions, []) == {}
    ensures JoinedMembers(sessions, members + [name]) ==
            JoinedMembers(sessions, members) + Sockets(LiveSocket(sessions, name))
  {
    var before := LiveSockets(sessions, members);
    var after := LiveSockets(sessions, members + [name]);
    assert after == before + [LiveSocket(sessions, name)];
  }

  /**
   * After `create-group`, the room holds what it held before, the creator's
   * socket and the socket of every listed member that has a live session.
   */
  function CreateGroupRoom(rooms: Rooms, groupId: string, sid: SocketId, sessions: seq<Session>, members: seq<string>): (r: Rooms)
    ensures Members(r, groupId) == Members(rooms, groupId) + {sid} + JoinedMembers(sessions, members)
    ensures forall g :: g != groupId ==> Members(r, g) == Members(rooms, g)
  {
    rooms[groupId := Members(rooms, groupId) + {sid} + JoinedMembers(sessions, members)]
  }

  /** The creator's socket alone is in the room before any member is visited. */
  lemma CreateGroupRoomStart(rooms: Rooms, groupId: string, sid: SocketId, sessions: seq<Session>)
    ensures CreateGroupRoom(rooms, groupId, sid, sessions, []) == Join(rooms, groupId, sid)
  {
    JoinedMembersSnoc(sessions, [], "");
    assert Members(rooms, groupId) + {sid} + {} == Members(rooms, groupId) + {sid};
  }

  /** Visiting one more listed member joins that member's live socket, if any. */
  lemma CreateGroupRoomSnoc(rooms: Rooms, groupId: string, sid: SocketId, sessions: seq<Session>, members: seq<string>, name: string)
    ensures CreateGroupRoom(rooms, groupId, sid, sessions, members + [name]) ==
            CreateGroupRoom(rooms, groupId, sid, sessions, members)[groupId := Members(CreateGroupRoom(rooms, groupId, sid, sessions, members), groupId) + Sockets(LiveSocket(sessions, name))]
  {
    JoinedMembersSnoc(sessions, members, name);
    RoomGrows(rooms, groupId, Members(rooms, groupId) + {sid}, JoinedMembers(sessions, members), Sockets(LiveSocket(sessions, name)));
  }

  /** Growing one room in two steps is growing it once by both parts. */
  lemma RoomGrows(rooms: Rooms, room: string, a: set<SocketId>, b: set<SocketId>, c: set<SocketId>)
    ensures rooms[room := a + (b + c)] == rooms[room := a + b][room := Members(rooms[room := a + b], room) + c]
  {
    assert a + (b + c) == (a + b) + c;
  }

  /** Visiting one more listed member sends at most one more notice. */
  lemma NewGroupNoticesSnoc(sessions: seq<Session>, members: seq<string>, name: string, g: Group)
    ensures NewGroupNotices(sessions, members + [name], g) ==
            NewGroupNotices(sessions, members, g) +
            match LiveSocket(sessions, name)
            case Some(s) => [Emit(ToSocket(s), NewGroup, GroupInfo(g))]
            case None => []
  {
    assert LiveSockets(sessions, members + [name]) == LiveSockets(sessions, members) + [LiveSocket(sessions, name)];
    NoticesSnoc(LiveSockets(sessions, members), LiveSocket(sessions, name), g);
  }
}
