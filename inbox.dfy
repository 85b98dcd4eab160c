/**
 * The client's handlers for the contact list and for live messages
 * (client/main.js:118-140, 551-667): who the client knows to be online,
 * and how an incoming private or group message revives a deleted
 * conversation and brings it to the top of the chat list.
 */
module Inbox {
  import opened Wrappers
  import opened Seqs
  import opened Text
  import opened Messages
  import Sessions
  import UserStore
  import opened OrderedSets
  import opened ChatList
  import opened Reconcile

  /**
   * An element of `allUsers`. A session sent by the server (`users-list`
   * after `register`, `user-connected`) carries its socket id; a stored
   * user record (`users-list` after `get-users`) carries none, shown as "".
   */
  datatype Contact = Contact(id: string, username: string, avatar: string)

  /** A session as the client receives it (server/server.js:324-330). */
  function FromSession(s: Sessions.Session): Contact {
    Contact(s.id, s.username, s.avatar)
  }

  /** A stored user record as the client receives it: it has `socketId` but no `id`. */
  function FromRecord(u: UserStore.UserRecord): Contact {
    Contact("", u.username, u.avatar)
  }

  /** No contact bears the user's own name. */
  ghost predicate ExcludesMe(contacts: seq<Contact>, me: string) {
    forall c :: c in contacts ==> c.username != me
  }

  /** `users-list` (client/main.js:118-121): everyone received except the user, compared exactly. */
  function UsersList(users: seq<Contact>, me: string): (r: seq<Contact>)
    ensures forall c :: c in r <==> c in users && c.username != me
    ensures ExcludesMe(r, me)
  {
    Keep(users, (c: Contact) => c.username != me)
  }

  /** `user-connected` (client/main.js:124-130): appended unless it is the user. */
  function UserConnected(contacts: seq<Contact>, c: Contact, me: string): (r: seq<Contact>)
    ensures c.username != me ==> r == contacts + [c]
    ensures c.username == me ==> r == contacts
    ensures ExcludesMe(contacts, me) ==> ExcludesMe(r, me)
  {
    if c.username != me then contacts + [c] else contacts
  }

  /** `user-disconnected` (client/main.js:133-137): every contact with that exact name leaves. */
  function UserDisconnected(contacts: seq<Contact>, username: string): (r: seq<Contact>)
    ensures forall c :: c in r <==> c in contacts && c.username != username
    ensures |r| <= |contacts|
  {
    Keep(contacts, (c: Contact) => c.username != username)
  }

  /** The part of the client a live message changes: the chat list and the deleted keys. */
  datatype Screen = Screen(list: seq<ChatItem>, deleted: seq<string>)

  /**
   * `handleReceivedMessage` with the key under which a missing chat is
   * created given: an unusable sender is ignored; otherwise the sender is
   * revived, a chat is created if none is keyed by the sender's name, and
   * the chat keyed by the sender's name gets the preview and moves to the
   * top.
   */
  function ReceiveWithKey(s: Screen, archived: set<string>, key: string, from: string, body: string, stamp: int): Screen {
    if !ValidKey(from) then s
    else
      var deleted := Delete(s.deleted, from);
      var list := if from in Ids(s.list) then s.list else AddChat(s.list, deleted, archived, key, false, body, Some(stamp));
      Screen(UpdatePreview(list, from, body, stamp), deleted)
  }

  /**
   * The key `handleReceivedMessage` creates a missing chat under, as written
   * (client/main.js:582-593): the first contact whose name matches the
   * sender's ignoring case is passed to `addChatToList`, which keys it by
   * `id || username`, so by its socket id when it has one.
   */
  function SenderKeyAsWritten(contacts: seq<Contact>, from: string): (r: string)
    ensures FirstIndex(contacts, (c: Contact) => SameIgnoringCase(c.username, from)).None? ==> r == from
    ensures forall i :: FirstIndex(contacts, (c: Contact) => SameIgnoringCase(c.username, from)) == Some(i) ==>
              r == ChatKey(contacts[i].id, contacts[i].username)
  {
    match FirstIndex(contacts, (c: Contact) => SameIgnoringCase(c.username, from))
    case Some(i) => ChatKey(contacts[i].id, contacts[i].username)
    case None => from
  }

  /** `handleReceivedMessage` as written (client/main.js:551-634). */
  function ReceivePrivateAsWritten(s: Screen, archived: set<string>, contacts: seq<Contact>, from: string, body: string, stamp: int): Screen {
    ReceiveWithKey(s, archived, SenderKeyAsWritten(contacts, from), from, body, stamp)
  }

  /**
   * A contact that arrived through `user-connected` carries a socket id, so
   * the chat its first message creates is keyed by that id, and neither this
   * message's preview nor any later one ever reaches it: they look for the
   * sender's name.
   */
  lemma SenderChatGoesStale()
    ensures var bob := Contact("s2", "bob", "x");
      var s0 := Screen([], ["undefined", "null", ""]);
      var s1 := ReceivePrivateAsWritten(s0, {}, [bob], "bob", "hola", 1);
      var s2 := ReceivePrivateAsWritten(s1, {}, [bob], "bob", "otra vez", 2);
      && s1.list == [ChatItem("s2", "hola", Some(1))]
      && s2.list == s1.list
  {
    BobFacts();
    FirstMessageFromBob();
    LaterMessageFromBob();
  }

  lemma BobFacts()
    ensures ValidKey("bob")
    ensures SenderKeyAsWritten([Contact("s2", "bob", "x")], "bob") == "s2"
    ensures Delete(["undefined", "null", ""], "bob") == ["undefined", "null", ""]
  {
    assert "bob"[0] == 'b' && !IsSpace('b');
    assert SameIgnoringCase("bob", "bob");
  }

  lemma FirstMessageFromBob()
    requires ValidKey("bob")
    requires SenderKeyAsWritten([Contact("s2", "bob", "x")], "bob") == "s2"
    requires Delete(["undefined", "null", ""], "bob") == ["undefined", "null", ""]
    ensures ReceivePrivateAsWritten(Screen([], ["undefined", "null", ""]), {}, [Contact("s2", "bob", "x")], "bob", "hola", 1)
            == Screen([ChatItem("s2", "hola", Some(1))], ["undefined", "null", ""])
  {
    var added := AddChat([], ["undefined", "null", ""], {}, "s2", false, "hola", Some(1));
    assert added == [ChatItem("s2", "hola", Some(1))];
    assert Ids(added) == ["s2"];
  }

  lemma LaterMessageFromBob()
    requires ValidKey("bob")
    requires SenderKeyAsWritten([Contact("s2", "bob", "x")], "bob") == "s2"
    requires Delete(["undefined", "null", ""], "bob") == ["undefined", "null", ""]
    ensures ReceivePrivateAsWritten(Screen([ChatItem("s2", "hola", Some(1))], ["undefined", "null", ""]), {}, [Contact("s2", "bob", "x")], "bob", "otra vez", 2).list
            == [ChatItem("s2", "hola", Some(1))]
  {
    assert Ids([ChatItem("s2", "hola", Some(1))]) == ["s2"];
  }

  /**
   * `handleReceivedMessage` keyed by the sender's name throughout, as the
   * preview update and the revival already are: the chat a message
   * creates is the one its preview then updates.
   */
  function ReceivePrivate(s: Screen, archived: set<string>, from: string, body: string, stamp: int): Screen {
    ReceiveWithKey(s, archived, from, from, body, stamp)
  }

  /**
   * A live message from a usable sender takes the sender out of the deleted
   * keys and, unless the conversation is archived and not listed, puts it
   * on top with this message's preview; the list keeps one entry per key.
   * A message from an unusable sender changes nothing.
   */
  lemma ReceivePrivateSpec(s: Screen, archived: set<string>, from: string, body: string, stamp: int)
    requires UniqueIds(s.list)
    ensures var r := ReceivePrivate(s, archived, from, body, stamp);
      && UniqueIds(r.list)
      && (!ValidKey(from) ==> r == s)
      && (ValidKey(from) ==> forall k :: k in r.deleted <==> k in s.deleted && k != from)
      && (ValidKey(from) && (from in Ids(s.list) || from !in archived) ==>
            r.list[0] == ChatItem(from, Truncate(body), Some(stamp))
            && forall k :: k in Ids(r.list) <==> k in Ids(s.list) || k == from)
      && (ValidKey(from) && from !in Ids(s.list) && from in archived ==> r.list == s.list)
  {
    if ValidKey(from) {
      var deleted := Delete(s.deleted, from);
      var list := if from in Ids(s.list) then s.list else AddChat(s.list, deleted, archived, from, false, body, Some(stamp));
      var r := UpdatePreview(list, from, body, stamp);
      assert multiset(Ids(r)) == multiset(Ids(list));
      forall k ensures k in Ids(r) <==> k in Ids(list) {
        assert k in Ids(r) <==> k in multiset(Ids(r));
        assert k in Ids(list) <==> k in multiset(Ids(list));
      }
    }
  }

  /**
   * `handleReceivedGroupMessage` (client/main.js:639-667): the group is
   * revived, and the chat keyed by the group id gets the preview and the
   * current time and moves to the top; a group that is not listed is not
   * added back. A message without a group id (shown as "") revives nothing
   * and looks the chat up by the name of a cached group without id, if any.
   */
  function ReceiveGroupMessage(s: Screen, groups: seq<Group>, groupId: string, body: string, now: int): Screen {
    var deleted := if groupId != "" then Delete(s.deleted, groupId) else s.deleted;
    var identifier :=
      match FirstIndex(groups, (g: Group) => g.id == groupId)
      case Some(i) => groups[i].name
      case None => groupId;
    var chatId := if groupId != "" then groupId else identifier;
    Screen(UpdatePreview(s.list, chatId, body, now), deleted)
  }

  /**
   * A live group message takes its group out of the deleted keys, reserved
   * ones included, and brings the group's chat to the top when it is
   * listed; an unlisted group stays off the list.
   */
  lemma ReceiveGroupMessageSpec(s: Screen, groups: seq<Group>, groupId: string, body: string, now: int)
    requires UniqueIds(s.list)
    requires groupId != ""
    ensures var r := ReceiveGroupMessage(s, groups, groupId, body, now);
      && UniqueIds(r.list)
      && (forall k :: k in r.deleted <==> k in s.deleted && k != groupId)
      && (groupId in Ids(s.list) ==> r.list[0] == ChatItem(groupId, Truncate(body), Some(now)))
      && (groupId !in Ids(s.list) ==> r.list == s.list)
      && multiset(Ids(r.list)) == multiset(Ids(s.list))
  {
  }
}
