/**
 * The server's state and its Socket.IO event handlers (server/server.js).
 * The three JSON stores become sequences held by the server object, the
 * in-memory `connectedUsers` registry a sequence of sessions, and every
 * emit is appended to `outbox`. Each handler is one method; each method is
 * tied to the specification functions of Sessions, UserStore and Routing,
 * where the properties are proved.
 */
module Server {
  import opened Wrappers
  import opened Seqs
  import opened Text
  import opened Messages
  import opened Sessions
  import opened UserStore
  import opened Routing

  /** `activeRooms[groupId]` (server/server.js:450-454). */
  datatype RoomInfo = RoomInfo(name: string, members: seq<string>, messages: seq<Message>)

  const NameTakenText: string := "El nombre de usuario ya está en uso"
  const SignedUpText: string := "Usuario registrado exitosamente"
  const LoginOkText: string := "Login exitoso"
  const LoginFailedText: string := "Usuario o contraseña incorrectos"

  /** The avatar "👥" of every new group. */
  const GroupAvatar: string := "\U{1F465}"

  /** `group_${Date.now()}` (server/server.js:434). */
  function GroupIdFor(now: nat): (r: string)
    ensures |r| > 6 && r[..6] == "group_" && r[6..] == Digits(now)
  {
    "group_" + Digits(now)
  }

  /** Groups created at different times get different ids. */
  lemma GroupIdForInjective(a: nat, b: nat)
    ensures GroupIdFor(a) == GroupIdFor(b) ==> a == b
  {
    if GroupIdFor(a) == GroupIdFor(b) {
      assert GroupIdFor(a)[6..] == GroupIdFor(b)[6..];
      DigitsInjective(a, b);
    }
  }

  class ChatServer {
    var connectedUsers: seq<Session>
    var rooms: Rooms
    var activeRooms: map<string, RoomInfo>
    var users: seq<UserRecord>
    var messages: seq<Message>
    var groups: seq<Group>
    var outbox: seq<Emit>

    /** Socket ids are keys, so distinct; and registration keeps one socket per username. */
    ghost predicate Valid()
      reads this
    {
      DistinctIds(connectedUsers) && OnePerName(connectedUsers)
    }

    /** A freshly started server over the stores found on disk. */
    constructor (storedUsers: seq<UserRecord>, storedMessages: seq<Message>, storedGroups: seq<Group>)
      ensures Valid()
      ensures connectedUsers == [] && rooms == map[] && activeRooms == map[] && outbox == []
      ensures users == storedUsers && messages == storedMessages && groups == storedGroups
    {
      connectedUsers := [];
      rooms := map[];
      activeRooms := map[];
      users := storedUsers;
      messages := storedMessages;
      groups := storedGroups;
      outbox := [];
    }

    /** `register-user` (server/server.js:238-273). */
    method RegisterUser(sid: SocketId, username: string, password: Option<string>, avatar: string, now: int)
      modifies this`users, this`outbox
      ensures match RegisterAccount(old(users), username, password, avatar, now)
        case Accepted(store) =>
          users == store && outbox == old(outbox) + [Emit(ToSocket(sid), RegisterResponse, Outcome(true, SignedUpText))]
        case NameTaken =>
          users == old(users) && outbox == old(outbox) + [Emit(ToSocket(sid), RegisterResponse, Outcome(false, NameTakenText))]
    {
      match RegisterAccount(users, username, password, avatar, now)
      case Accepted(store) =>
        users := store;
        outbox := outbox + [Emit(ToSocket(sid), RegisterResponse, Outcome(true, SignedUpText))];
      case NameTaken =>
        outbox := outbox + [Emit(ToSocket(sid), RegisterResponse, Outcome(false, NameTakenText))];
    }

    /** `login-user` (server/server.js:278-305). */
    method LoginUser(sid: SocketId, username: string, password: Option<string>)
      modifies this`outbox
      ensures match Login(users, username, password)
        case Some(u) => outbox == old(outbox) + [Emit(ToSocket(sid), LoginResponse, LoginGranted(u.username, u.avatar, LoginOkText))]
        case None => outbox == old(outbox) + [Emit(ToSocket(sid), LoginResponse, Outcome(false, LoginFailedText))]
    {
      match Login(users, username, password)
      case Some(u) =>
        outbox := outbox + [Emit(ToSocket(sid), LoginResponse, LoginGranted(u.username, u.avatar, LoginOkText))];
      case None =>
        outbox := outbox + [Emit(ToSocket(sid), LoginResponse, Outcome(false, LoginFailedText))];
    }

    /**
     * `register` (server/server.js:310-375): evicts the first other socket
     * bound to exactly this username, installs the session, upserts the
     * store record, and answers with `registered`, the `users-list` of the
     * other sessions and a `user-connected` broadcast. No emit is addressed
     * to the evicted socket.
     */
    method Register(sid: SocketId, username: string, avatar: string, now: int)
      requires Valid()
      modifies this`connectedUsers, this`users, this`outbox
      ensures Valid()
      ensures connectedUsers == Sessions.Register(old(connectedUsers), sid, username, avatar, now)
      ensures users == UpsertOnRegister(old(users), username, avatar, sid, now)
      ensures outbox == old(outbox) + Welcome(connectedUsers, Session(sid, username, AvatarOrDefault(avatar), true, now))
    {
      var registry := Sessions.Register(connectedUsers, sid, username, avatar, now);
      assert OnePerName(registry) by {
        RegisterSpec(connectedUsers, sid, username, avatar, now);
      }
      connectedUsers := registry;
      users := UpsertOnRegister(users, username, avatar, sid, now);
      outbox := outbox + Welcome(registry, Session(sid, username, AvatarOrDefault(avatar), true, now));
    }

    /** `get-users` (server/server.js:380-383): the whole user store, to the asking socket. */
    method GetUsers(sid: SocketId)
      modifies this`outbox
      ensures outbox == old(outbox) + [Emit(ToSocket(sid), UsersList, StoredUsers(users))]
    {
      outbox := outbox + [Emit(ToSocket(sid), UsersList, StoredUsers(users))];
    }

    /**
     * `private-message` (server/server.js:389-426): the message is logged
     * whether or not the recipient is online, then fanned out.
     */
    method PrivateMessage(sid: SocketId, from: string, fromUsername: string, to: string, body: string, now: int)
      modifies this`messages, this`outbox
      ensures var m := Message(now, PrivateType, from, fromUsername, to, "", body, now);
        && messages == old(messages) + [m]
        && outbox == old(outbox) + PrivateFanOut(connectedUsers, sid, m)
    {
      var m := Message(now, PrivateType, from, fromUsername, to, "", body, now);
      messages := messages + [m];
      outbox := outbox + PrivateFanOut(connectedUsers, sid, m);
    }

    /**
     * `create-group` (server/server.js:431-478): logs the group, opens its
     * room with the creator's socket, acknowledges the creator, then joins
     * and notifies the live session of every listed member in turn.
     */
    method CreateGroup(sid: SocketId, groupName: string, members: seq<string>, creator: string, now: nat)
      modifies this`groups, this`activeRooms, this`rooms, this`outbox
      ensures var g := Group(GroupIdFor(now), groupName, members, creator, now, GroupAvatar);
        && groups == old(groups) + [g]
        && activeRooms == old(activeRooms)[g.id := RoomInfo(groupName, members, [])]
        && rooms == CreateGroupRoom(old(rooms), g.id, sid, connectedUsers, members)
        && outbox == old(outbox) + [Emit(ToSocket(sid), GroupCreated, GroupInfo(g))] + NewGroupNotices(connectedUsers, members, g)
    {
      var gid := GroupIdFor(now);
      var g := Group(gid, groupName, members, creator, now, GroupAvatar);
      groups := groups + [g];
      activeRooms := activeRooms[gid := RoomInfo(groupName, members, [])];
      var room, notices := AdmitMembers(sid, members, g);
      rooms := room;
      outbox := outbox + [Emit(ToSocket(sid), GroupCreated, GroupInfo(g))] + notices;
    }

    /**
     * The member loop of `create-group` (server/server.js:462-475): each
     * listed name with a live session has that socket joined to the room
     * and sent `new-group`; names without one are skipped.
     */
    method AdmitMembers(sid: SocketId, members: seq<string>, g: Group) returns (room: Rooms, notices: seq<Emit>)
      ensures room == CreateGroupRoom(rooms, g.id, sid, connectedUsers, members)
      ensures notices == NewGroupNotices(connectedUsers, members, g)
    {
      var before, sessions := rooms, connectedUsers;
      room := Join(before, g.id, sid);
      notices := [];
      CreateGroupRoomStart(before, g.id, sid, sessions);
      assert members[..0] == [];
      var i := 0;
      while i < |members|
        invariant 0 <= i <= |members|
        invariant room == CreateGroupRoom(before, g.id, sid, sessions, members[..i])
        invariant notices == NewGroupNotices(sessions, members[..i], g)
        invariant g.id in room
      {
        var name := members[i];
        PrefixSnoc(members, i);
        CreateGroupRoomSnoc(before, g.id, sid, sessions, members[..i], name);
        NewGroupNoticesSnoc(sessions, members[..i], name, g);
        room, notices := AdmitMember(room, notices, sessions, name, g);
        i := i + 1;
      }
      assert members[..i] == members;
    }

    /**
     * One turn of the member loop of `create-group` (server/server.js:463-474):
     * the member's live socket, if any, joins the room and is sent
     * `new-group`.
     */
    method AdmitMember(room: Rooms, notices: seq<Emit>, sessions: seq<Session>, name: string, g: Group)
      returns (room': Rooms, notices': seq<Emit>)
      requires g.id in room
      ensures room' == room[g.id := Members(room, g.id) + Sockets(LiveSocket(sessions, name))]
      ensures notices' == notices + match LiveSocket(sessions, name)
        case Some(s) => [Emit(ToSocket(s), NewGroup, GroupInfo(g))]
        case None => []
    {
      match LiveSocket(sessions, name) {
        case Some(s) =>
          assert Sockets(Some(s)) == {s};
          room' := room[g.id := Members(room, g.id) + {s}];
          notices' := notices + [Emit(ToSocket(s), NewGroup, GroupInfo(g))];
        case None =>
          assert Members(room, g.id) + {} == Members(room, g.id);
          room' := room;
          notices' := notices;
      }
    }

    /** `join-group` (server/server.js:483-486): no membership check. */
    method JoinGroup(sid: SocketId, groupId: string)
      modifies this`rooms
      ensures rooms == Join(old(rooms), groupId, sid)
    {
      rooms := Join(rooms, groupId, sid);
    }

    /**
     * `group-message` (server/server.js:491-516): the message is logged,
     * broadcast to the room except the sender, and sent once to the sender.
     */
    method GroupMessage(sid: SocketId, groupId: string, from: string, fromUsername: string, body: string, now: int)
      modifies this`messages, this`outbox
      ensures var m := Message(now, GroupType, from, fromUsername, "", groupId, body, now);
        && messages == old(messages) + [m]
        && outbox == old(outbox) + GroupFanOut(groupId, sid, m)
    {
      var m := Message(now, GroupType, from, fromUsername, "", groupId, body, now);
      messages := messages + [m];
      outbox := outbox + GroupFanOut(groupId, sid, m);
    }

    /**
     * `disconnect` (server/server.js:557-584): for a registered socket, the
     * store record goes offline, everyone hears `user-disconnected`, and the
     * session is dropped; for any other socket nothing changes.
     */
    method Disconnect(sid: SocketId, now: int)
      requires Valid()
      modifies this`connectedUsers, this`users, this`outbox
      ensures Valid()
      ensures connectedUsers == Sessions.Disconnect(old(connectedUsers), sid)
      ensures match IndexOfId(old(connectedUsers), sid)
        case Some(i) =>
          && users == MarkOffline(old(users), old(connectedUsers)[i].username, now)
          && outbox == old(outbox) + [Emit(ToAll, UserDisconnected, Departure(old(connectedUsers)[i].username, now))]
        case None =>
          users == old(users) && outbox == old(outbox) && connectedUsers == old(connectedUsers)
    {
      DisconnectSpec(connectedUsers, sid);
      match IndexOfId(connectedUsers, sid)
      case Some(i) =>
        var user := connectedUsers[i];
        users := MarkOffline(users, user.username, now);
        outbox := outbox + [Emit(ToAll, UserDisconnected, Departure(user.username, now))];
        connectedUsers := Remove(connectedUsers, sid);
      case None =>
    }
  }
}
