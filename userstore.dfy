/**
 * The persisted user store (`users.json`, read and rewritten whole by
 * server/server.js:66-85), as an append-only sequence of records. Records
 * are never removed; the fields a record lacks in the source are `None`.
 */
module UserStore {
  import opened Wrappers
  import opened Seqs
  import opened Text
  import opened Sessions

  /**
   * A stored user. `register-user` writes username, password, avatar and
   * createdAt (server/server.js:257-262); `register` writes username,
   * avatar, socketId, online, createdAt and lastSeen, and no password
   * (server/server.js:342-349).
   */
  datatype UserRecord = UserRecord(
    username: string,
    password: Option<string>,
    avatar: string,
    socketId: Option<SocketId>,
    online: Option<bool>,
    createdAt: int,
    lastSeen: Option<int>)

  /** No two records share a username ignoring case: what `register-user` alone maintains. */
  ghost predicate NamesUniqueIgnoringCase(users: seq<UserRecord>) {
    forall i, j :: 0 <= i < j < |users| ==> !SameIgnoringCase(users[i].username, users[j].username)
  }

  /** First record whose username equals `u` exactly (`findIndex`, server/server.js:334 and 563). */
  function FindExact(users: seq<UserRecord>, u: string): (r: Option<nat>)
    ensures r.Some? ==> r.value < |users| && users[r.value].username == u
    ensures r.Some? ==> forall j :: 0 <= j < r.value ==> users[j].username != u
    ensures r.None? <==> forall j :: 0 <= j < |users| ==> users[j].username != u
  {
    FirstIndex(users, (x: UserRecord) => x.username == u)
  }

  /** The outcome of `register-user`: the new store, or a refusal because the name is taken. */
  datatype SignUp = Accepted(store: seq<UserRecord>) | NameTaken

  /**
   * `register-user` (server/server.js:238-273): refused when some record
   * has the same username ignoring case, otherwise one record is appended.
   */
  function RegisterAccount(users: seq<UserRecord>, username: string, password: Option<string>, avatar: string, now: int): (r: SignUp)
    ensures r.NameTaken? <==> exists j :: 0 <= j < |users| && SameIgnoringCase(users[j].username, username)
    ensures r.Accepted? ==> r.store == users + [UserRecord(username, password, AvatarOrDefault(avatar), None, None, now, None)]
  {
    match FirstIndex(users, (x: UserRecord) => SameIgnoringCase(x.username, username))
    case Some(_) => NameTaken
    case None => Accepted(users + [UserRecord(username, password, AvatarOrDefault(avatar), None, None, now, None)])
  }

  /** `register-user` keeps usernames unique ignoring case. */
  lemma RegisterAccountKeepsNamesUnique(users: seq<UserRecord>, username: string, password: Option<string>, avatar: string, now: int)
    requires NamesUniqueIgnoringCase(users)
    ensures match RegisterAccount(users, username, password, avatar, now)
      case Accepted(store) => NamesUniqueIgnoringCase(store) && |store| == |users| + 1
      case NameTaken => true
  {
    match RegisterAccount(users, username, password, avatar, now)
    case Accepted(store) =>
      forall i, j | 0 <= i < j < |store| ensures !SameIgnoringCase(store[i].username, store[j].username) {
        if j == |users| {
          assert store[i] == users[i];
          assert !SameIgnoringCase(users[i].username, username);
        }
      }
    case NameTaken =>
  }

  /**
   * `login-user` (server/server.js:278-305): the first record whose username
   * matches ignoring case and whose stored password equals the given one
   * exactly (an absent password equals only an absent one, as `===` on
   * `undefined` does).
   */
  function Login(users: seq<UserRecord>, username: string, password: Option<string>): (r: Option<UserRecord>)
    ensures r.Some? <==> exists j :: 0 <= j < |users| && SameIgnoringCase(users[j].username, username) && users[j].password == password
    ensures r.Some? ==> r.value in users && SameIgnoringCase(r.value.username, username) && r.value.password == password
  {
    match FirstIndex(users, (x: UserRecord) => SameIgnoringCase(x.username, username) && x.password == password)
    case Some(i) => Some(users[i])
    case None => None
  }

  /**
   * An accepted sign-up can log in straight away with the same name (in any
   * case) and password, and the login answers with the name as registered.
   */
  lemma {:induction false} SignUpThenLogin(users: seq<UserRecord>, username: string, typed: string, password: Option<string>, avatar: string, now: int)
    requires RegisterAccount(users, username, password, avatar, now).Accepted?
    requires SameIgnoringCase(typed, username)
    ensures Login(RegisterAccount(users, username, password, avatar, now).store, typed, password)
         == Some(UserRecord(username, password, AvatarOrDefault(avatar), None, None, now, None))
  {
    var store := RegisterAccount(users, username, password, avatar, now).store;
    var rec := UserRecord(username, password, AvatarOrDefault(avatar), None, None, now, None);
    var r := Login(store, typed, password);
    assert store[|users|] == rec;
    assert r.Some?;
    forall j | 0 <= j < |users| ensures !SameIgnoringCase(store[j].username, typed) {
      assert store[j] == users[j];
      assert !SameIgnoringCase(users[j].username, username);
    }
    assert r.value in store;
  }

  /**
   * The store after `register` (server/server.js:333-350): the first record
   * with exactly this username is updated in place, otherwise one record is
   * appended.
   */
  function UpsertOnRegister(users: seq<UserRecord>, username: string, avatar: string, sid: SocketId, now: int): (r: seq<UserRecord>)
    ensures |users| <= |r| <= |users| + 1
    ensures |r| == |users| + 1 <==> forall j :: 0 <= j < |users| ==> users[j].username != username
    ensures forall j :: 0 <= j < |users| ==>
      r[j].username == users[j].username && r[j].password == users[j].password && r[j].createdAt == users[j].createdAt
    ensures forall j :: 0 <= j < |users| && users[j].username != username ==> r[j] == users[j]
    ensures exists k :: 0 <= k < |r| && r[k].username == username && r[k].online == Some(true) &&
                        r[k].socketId == Some(sid) && r[k].lastSeen == Some(now) && r[k].avatar == AvatarOrDefault(avatar)
  {
    match FindExact(users, username)
    case Some(i) =>
      var r := users[i := users[i].(online := Some(true), socketId := Some(sid), lastSeen := Some(now), avatar := AvatarOrDefault(avatar))];
      assert r[i].username == username;
      r
    case None =>
      var r := users + [UserRecord(username, None, AvatarOrDefault(avatar), Some(sid), Some(true), now, Some(now))];
      assert r[|users|].username == username;
      r
  }

  /**
   * The store after `disconnect` of a session named `username`
   * (server/server.js:562-569): the first record with exactly that username
   * goes offline with `lastSeen` set; no record is added or removed.
   */
  function MarkOffline(users: seq<UserRecord>, username: string, now: int): (r: seq<UserRecord>)
    ensures |r| == |users|
    ensures forall j :: 0 <= j < |users| ==>
      r[j].username == users[j].username && r[j].password == users[j].password && r[j].avatar == users[j].avatar
    ensures forall j :: 0 <= j < |users| && users[j].username != username ==> r[j] == users[j]
    ensures (exists j :: 0 <= j < |users| && users[j].username == username) ==>
              exists k :: 0 <= k < |r| && r[k].username == username && r[k].online == Some(false) && r[k].lastSeen == Some(now)
  {
    match FindExact(users, username)
    case Some(i) =>
      var r := users[i := users[i].(online := Some(false), lastSeen := Some(now))];
      assert r[i].username == username;
      r
    case None => users
  }
}
