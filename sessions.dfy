/**
 * The server's registry of live connections, `connectedUsers`
 * (server/server.js:31). It is a JavaScript object keyed by socket id, so
 * its keys keep insertion order: assigning to an existing key keeps its
 * place, a new key goes last, `delete` drops the key, and
 * `Object.keys(connectedUsers).find(...)` yields the FIRST matching socket.
 * The registry is therefore a sequence of sessions with distinct ids.
 */
module Sessions {
  import opened Wrappers
  import opened Seqs
  import opened Text

  type SocketId = string

  /** One entry of `connectedUsers` (server/server.js:324-330). */
  datatype Session = Session(id: SocketId, username: string, avatar: string, online: bool, lastSeen: int)

  /** The default avatar "👤" used wherever an avatar is missing or empty. */
  const DefaultAvatar: string := "\U{1F464}"

  /** `avatar || "👤"`. */
  function AvatarOrDefault(avatar: string): (r: string)
    ensures r != []
    ensures avatar != [] ==> r == avatar
  {
    if avatar == [] then DefaultAvatar else avatar
  }

  /** The keys of a JavaScript object are distinct. */
  ghost predicate DistinctIds(s: seq<Session>) {
    forall i, j :: 0 <= i < j < |s| ==> s[i].id != s[j].id
  }

  /** At most one live session per (case-sensitive) username. */
  ghost predicate OnePerName(s: seq<Session>) {
    forall i, j :: 0 <= i < j < |s| ==> s[i].username != s[j].username
  }

  /** The sockets of the registry. */
  ghost function Ids(s: seq<Session>): set<SocketId> {
    set x | x in s :: x.id
  }

  /** Position of socket `sid`: the key lookup `connectedUsers[sid]`. */
  function IndexOfId(s: seq<Session>, sid: SocketId): (r: Option<nat>)
    ensures r.Some? ==> r.value < |s| && s[r.value].id == sid
    ensures r.None? <==> sid !in Ids(s)
  {
    FirstIndex(s, (x: Session) => x.id == sid)
  }

  /** First socket whose username equals `u` exactly (server/server.js:314-316). */
  function FindByName(s: seq<Session>, u: string): (r: Option<nat>)
    ensures r.Some? ==> r.value < |s| && s[r.value].username == u
    ensures r.Some? ==> forall j :: 0 <= j < r.value ==> s[j].username != u
    ensures r.None? <==> forall x :: x in s ==> x.username != u
  {
    FirstIndex(s, (x: Session) => x.username == u)
  }

  /** First socket whose username equals `u` ignoring case (server/server.js:410-412, 464-467). */
  function FindByNameIgnoringCase(s: seq<Session>, u: string): (r: Option<nat>)
    ensures r.Some? ==> r.value < |s| && SameIgnoringCase(s[r.value].username, u)
    ensures r.Some? ==> forall j :: 0 <= j < r.value ==> !SameIgnoringCase(s[j].username, u)
    ensures r.None? <==> forall x :: x in s ==> !SameIgnoringCase(x.username, u)
  {
    FirstIndex(s, (x: Session) => SameIgnoringCase(x.username, u))
  }

  lemma DistinctCons(h: Session, t: seq<Session>)
    ensures DistinctIds(t) && (forall x :: x in t ==> x.id != h.id) ==> DistinctIds([h] + t)
  {
    var r := [h] + t;
    if DistinctIds(t) && (forall x :: x in t ==> x.id != h.id) {
    forall i, j | 0 <= i < j < |r| ensures r[i].id != r[j].id {
      assert r[j] == t[j - 1];
      if i > 0 { assert r[i] == t[i - 1]; } else { assert r[j] in t; }
    }
    }
  }

  lemma OnePerNameCons(h: Session, t: seq<Session>)
    ensures OnePerName(t) && (forall x :: x in t ==> x.username != h.username) ==> OnePerName([h] + t)
  {
    var r := [h] + t;
    if OnePerName(t) && (forall x :: x in t ==> x.username != h.username) {
    forall i, j | 0 <= i < j < |r| ensures r[i].username != r[j].username {
      assert r[j] == t[j - 1];
      if i > 0 { assert r[i] == t[i - 1]; } else { assert r[j] in t; }
    }
    }
  }

  /**
   * `connectedUsers[e.id] = e`: the session of `e.id` becomes `e` (in place
   * if the key exists, appended otherwise) and nothing else changes.
   */
  function Put(s: seq<Session>, e: Session): (r: seq<Session>)
    requires DistinctIds(s)
    ensures DistinctIds(r)
    ensures e in r
    ensures forall x :: x in s && x.id != e.id ==> x in r
    ensures forall x :: x in r ==> x == e || (x in s && x.id != e.id)
    ensures OnePerName(s) && (forall x :: x in s && x.id != e.id ==> x.username != e.username) ==> OnePerName(r)
  {
    PutFacts(s, e);
    match IndexOfId(s, e.id)
    case Some(i) => s[i := e]
    case None => s + [e]
  }

  lemma PutFacts(s: seq<Session>, e: Session)
    requires DistinctIds(s)
    ensures var r := match IndexOfId(s, e.id) case Some(i) => s[i := e] case None => s + [e];
      && DistinctIds(r)
      && e in r
      && (forall x :: x in s && x.id != e.id ==> x in r)
      && (forall x :: x in r ==> x == e || (x in s && x.id != e.id))
      && (OnePerName(s) && (forall x :: x in s && x.id != e.id ==> x.username != e.username) ==> OnePerName(r))
  {
    match IndexOfId(s, e.id)
    case Some(k) =>
      var r := s[k := e];
      assert r[k] == e;
      forall x | x in s && x.id != e.id ensures x in r {
        var j :| 0 <= j < |s| && s[j] == x;
        assert r[j] == x;
      }
      forall x | x in r ensures x == e || (x in s && x.id != e.id) {
        var j :| 0 <= j < |r| && r[j] == x;
        if j != k { assert s[j] == x && s[j].id != s[k].id; }
      }
      forall i, j | 0 <= i < j < |r| ensures r[i].id != r[j].id { }
      if OnePerName(s) && (forall x :: x in s && x.id != e.id ==> x.username != e.username) {
        forall i, j | 0 <= i < j < |r| ensures r[i].username != r[j].username {
          if i == k { assert s[j] in s; } else if j == k { assert s[i] in s; }
        }
      }
    case None =>
      var r := s + [e];
      forall x | x in s ensures x in r && x.id != e.id {
        var j :| 0 <= j < |s| && s[j] == x;
        assert r[j] == x;
      }
      forall i, j | 0 <= i < j < |r| ensures r[i].id != r[j].id {
        if j == |s| { assert r[i] == s[i]; assert s[i] in s; }
      }
      if OnePerName(s) && (forall x :: x in s && x.id != e.id ==> x.username != e.username) {
        forall i, j | 0 <= i < j < |r| ensures r[i].username != r[j].username {
          if j == |s| { assert r[i] == s[i]; assert s[i] in s; }
        }
      }
  }

  /** `delete connectedUsers[sid]`: every session but that of `sid` is kept, in order. */
  function Remove(s: seq<Session>, sid: SocketId): (r: seq<Session>)
    ensures |r| <= |s|
    ensures forall x :: x in r <==> x in s && x.id != sid
    ensures DistinctIds(s) ==> DistinctIds(r)
    ensures OnePerName(s) ==> OnePerName(r)
  {
    if s == [] then []
    else
      var t := Remove(s[1..], sid);
      RemoveStep(s, t, sid);
      if s[0].id == sid then t else [s[0]] + t
  }

  lemma RemoveStep(s: seq<Session>, t: seq<Session>, sid: SocketId)
    requires s != []
    requires forall x :: x in t <==> x in s[1..] && x.id != sid
    requires DistinctIds(s[1..]) ==> DistinctIds(t)
    requires OnePerName(s[1..]) ==> OnePerName(t)
    ensures var r := if s[0].id == sid then t else [s[0]] + t;
      && (forall x :: x in r <==> x in s && x.id != sid)
      && (DistinctIds(s) ==> DistinctIds(r))
      && (OnePerName(s) ==> OnePerName(r))
  {
    assert s == [s[0]] + s[1..];
    if DistinctIds(s) {
      forall x | x in s[1..] ensures x.id != s[0].id {
        var j :| 0 <= j < |s[1..]| && s[1..][j] == x;
        assert s[j + 1] == x;
      }
      DistinctCons(s[0], t);
    }
    if OnePerName(s) {
      forall x | x in s[1..] ensures x.username != s[0].username {
        var j :| 0 <= j < |s[1..]| && s[1..][j] == x;
        assert s[j + 1] == x;
      }
      OnePerNameCons(s[0], t);
    }
  }

  /**
   * The registry once the first socket bound to exactly `username` is
   * dropped, unless that socket is `sid` itself (server/server.js:313-321).
   */
  function Evict(s: seq<Session>, sid: SocketId, username: string): (r: seq<Session>)
    requires DistinctIds(s)
    ensures DistinctIds(r)
    ensures OnePerName(s) ==> OnePerName(r)
    ensures forall x :: x in r ==> x in s
    ensures forall x :: x in s && x.username != username ==> x in r
    ensures OnePerName(s) ==> forall x :: x in r && x.id != sid ==> x.username != username
  {
    match FindByName(s, username)
    case Some(i) =>
      if s[i].id != sid then
        assert OnePerName(s) ==> forall x :: x in s && x.username == username ==> x == s[i] by {
          if OnePerName(s) {
            forall x | x in s && x.username == username ensures x == s[i] {
              var j :| 0 <= j < |s| && s[j] == x;
            }
          }
        }
        Remove(s, s[i].id)
      else
        assert OnePerName(s) ==> forall x :: x in s && x.id != sid ==> x.username != username by {
          if OnePerName(s) {
            forall x | x in s && x.id != sid ensures x.username != username {
              var j :| 0 <= j < |s| && s[j] == x;
            }
          }
        }
        s
    case None => s
  }

  /**
   * The registry after `register` from socket `sid` as `username`
   * (server/server.js:313-330): the first socket bound to exactly that
   * username is dropped when it is not `sid`, then the session of `sid` is set.
   */
  function Register(s: seq<Session>, sid: SocketId, username: string, avatar: string, now: int): (r: seq<Session>)
    requires DistinctIds(s)
    ensures DistinctIds(r)
  {
    Put(Evict(s, sid, username), Session(sid, username, AvatarOrDefault(avatar), true, now))
  }

  /**
   * `register` installs exactly one session for `sid`, bound to `username`;
   * no other socket keeps that username; every session of another name
   * survives unchanged; nothing new appears; and "one session per
   * username" is preserved.
   */
  lemma RegisterSpec(s: seq<Session>, sid: SocketId, username: string, avatar: string, now: int)
    requires DistinctIds(s) && OnePerName(s)
    ensures var r := Register(s, sid, username, avatar, now);
      && OnePerName(r)
      && Session(sid, username, AvatarOrDefault(avatar), true, now) in r
      && (forall x :: x in r && x.id == sid ==> x == Session(sid, username, AvatarOrDefault(avatar), true, now))
      && (forall x :: x in r && x.id != sid ==> x.username != username && x in s)
      && (forall x :: x in s && x.id != sid && x.username != username ==> x in r)
  {
  }

  /** The registry with `sid` gone, as `disconnect` leaves it (server/server.js:558-580). */
  function Disconnect(s: seq<Session>, sid: SocketId): seq<Session> {
    if IndexOfId(s, sid).Some? then Remove(s, sid) else s
  }

  /**
   * After `disconnect`, `sid` has no session and every other session is kept;
   * a socket with no session (never registered, or already evicted) leaves
   * the registry as it was.
   */
  lemma DisconnectSpec(s: seq<Session>, sid: SocketId)
    ensures var r := Disconnect(s, sid);
      && (forall x :: x in r <==> x in s && x.id != sid)
      && (sid !in Ids(s) ==> r == s)
      && (OnePerName(s) ==> OnePerName(r))
  {
  }

  /** The `users-list` payload sent to a new session: the sessions of every other username (server/server.js:362-367). */
  function OthersOnline(s: seq<Session>, username: string): seq<Session> {
    var others := Keep(s, (x: Session) => x.username != username);
    seq(|others|, i requires 0 <= i < |others| => others[i].(online := true))
  }

  /** The `users-list` payload holds, marked online, exactly the sessions whose username differs from the newcomer's. */
  lemma OthersOnlineSpec(s: seq<Session>, username: string)
    ensures var r := OthersOnline(s, username);
      && |r| <= |s|
      && (forall x :: x in r ==> x.online && x.username != username)
      && (forall x :: x in s && x.username != username ==> x.(online := true) in r)
      && (forall x :: x in r ==> exists y :: y in s && y.username != username && x == y.(online := true))
  {
    var others := Keep(s, (x: Session) => x.username != username);
    var r := OthersOnline(s, username);
    assert |r| == |others|;
    forall x | x in s && x.username != username ensures x.(online := true) in r {
      assert x in others;
      var j :| 0 <= j < |others| && others[j] == x;
      assert r[j] == x.(online := true);
    }
    forall x | x in r ensures x.online && x.username != username && exists y :: y in s && y.username != username && x == y.(online := true) {
      var j :| 0 <= j < |r| && r[j] == x;
      var y := others[j];
      assert y in others;
      assert y in s && y.username != username && x == y.(online := true);
    }
  }

}
