/**
 * The chat client's state (client/main.js:45-57) and the handlers that
 * change it. The chat list is the sequence of its entries; the two
 * browser storage keys the client uses are fields holding what they
 * contain; the `join-group` requests it sends are recorded in order.
 */
module Client {
  import opened Wrappers
  import opened Seqs
  import opened Messages
  import opened OrderedSets
  import opened DeletedChats
  import opened ChatList
  import opened Reconcile
  import opened GroupCache
  import opened Inbox

  class ChatClient {
    /** `currentUser.username`. */
    const me: string
    /** `archivedChats`: never added to in the client, so fixed at start. */
    const archivedChats: set<string>
    /** `deletedChats`, in insertion order. */
    var deletedChats: seq<string>
    /** The storage key `kios_deleted_<me>`. */
    var deletedStore: Stored
    /** The chat list, top to bottom. */
    var chatList: seq<ChatItem>
    /** `allUsers`. */
    var allUsers: seq<Contact>
    /** `allGroups`. */
    var allGroups: seq<Group>
    /** The storage key `kios_groups_<me>`. */
    var groupStore: GroupStore
    /** The group ids sent in `join-group`, oldest first. */
    var joinRequests: seq<string>

    /** One entry per chat key, one occurrence per deleted key, and the user is not a contact. */
    ghost predicate Valid()
      reads this
    {
      UniqueIds(chatList) && NoDups(deletedChats) && ExcludesMe(allUsers, me)
    }

    /** A fresh page for user `me` over what the browser has stored. */
    constructor(me: string, archived: set<string>, deletedStore: Stored, groupStore: GroupStore)
      ensures Valid()
      ensures this.me == me && archivedChats == archived
      ensures this.deletedStore == deletedStore && this.groupStore == groupStore
      ensures deletedChats == [] && chatList == [] && allUsers == [] && allGroups == [] && joinRequests == []
    {
      this.me := me;
      archivedChats := archived;
      this.deletedStore := deletedStore;
      this.groupStore := groupStore;
      deletedChats := [];
      chatList := [];
      allUsers := [];
      allGroups := [];
      joinRequests := [];
    }

    /** `loadDeletedChats` (client/main.js:1504-1528). */
    method LoadDeletedChats()
      requires Valid()
      modifies this`deletedChats, this`deletedStore
      ensures Valid()
      ensures deletedChats == LoadDeleted(old(deletedStore))
      ensures deletedStore == StoredAfterLoad(old(deletedStore))
    {
      match deletedStore {
        case Malformed =>
          deletedChats := Reserved;
        case Absent =>
          deletedChats := [];
          deletedChats := Add(deletedChats, "undefined");
          deletedChats := Add(deletedChats, "null");
          deletedChats := Add(deletedChats, "");
          deletedStore := Parsed(deletedChats);
        case Parsed(items) =>
          deletedChats := FromArray(items);
          deletedChats := Add(deletedChats, "undefined");
          deletedChats := Add(deletedChats, "null");
          deletedChats := Add(deletedChats, "");
          deletedStore := Parsed(deletedChats);
      }
    }

    /** `deleteChat` once confirmed (client/main.js:1373-1374): the key is deleted and the set saved. */
    method DeleteChat(chatId: string)
      requires Valid()
      modifies this`deletedChats, this`deletedStore
      ensures Valid()
      ensures deletedChats == Add(old(deletedChats), chatId)
      ensures deletedStore == Parsed(deletedChats)
    {
      deletedChats := Add(deletedChats, chatId);
      deletedStore := Parsed(deletedChats);
    }

    /** The delayed part of `deleteChat` (client/main.js:1376-1382): the entry leaves the list. */
    method FinishDeleteChat(chatId: string)
      requires Valid()
      modifies this`chatList
      ensures Valid()
      ensures chatList == RemoveChat(old(chatList), chatId)
      ensures chatId !in Ids(chatList)
    {
      chatList := RemoveChat(chatList, chatId);
    }

    /** `addChatToList` (client/main.js:331-410), given the chat's key. */
    method AddChatToList(id: string, isGroup: bool, lastMessage: string, stamp: Option<int>)
      requires Valid()
      modifies this`chatList
      ensures Valid()
      ensures chatList == AddChat(old(chatList), deletedChats, archivedChats, id, isGroup, lastMessage, stamp)
    {
      chatList := AddChat(chatList, deletedChats, archivedChats, id, isGroup, lastMessage, stamp);
    }

    /**
     * `updateChatPreview` (client/main.js:729-759): the key is `groupId ||
     * identifier`; the time shown is the message's, or the clock's `now`.
     */
    method UpdateChatPreview(identifier: string, message: string, groupId: string, timestamp: Option<int>, now: int)
      requires Valid()
      modifies this`chatList
      ensures Valid()
      ensures chatList == UpdatePreview(old(chatList), if groupId != "" then groupId else identifier, message,
                                        if timestamp.Some? then timestamp.value else now)
    {
      var chatId := if groupId != "" then groupId else identifier;
      var shown := if timestamp.Some? then timestamp.value else now;
      chatList := UpdatePreview(chatList, chatId, message, shown);
    }

    /**
     * `handleReceivedMessage` (client/main.js:551-634), with the missing
     * chat created under the sender's name.
     */
    method HandleReceivedMessage(m: Message)
      requires Valid()
      modifies this`chatList, this`deletedChats, this`deletedStore
      ensures Valid()
      ensures Screen(chatList, deletedChats) == ReceivePrivate(Screen(old(chatList), old(deletedChats)), archivedChats, m.fromUsername, m.body, m.timestamp)
      ensures deletedStore == if ValidKey(m.fromUsername) && m.fromUsername in old(deletedChats) then Parsed(deletedChats) else old(deletedStore)
    {
      var from := m.fromUsername;
      if !ValidKey(from) {
        return;
      }
      if from in deletedChats {
        deletedChats := Delete(deletedChats, from);
        deletedStore := Parsed(deletedChats);
      }
      if from !in Ids(chatList) {
        AddChatToList(from, false, m.body, Some(m.timestamp));
      }
      UpdateChatPreview(from, m.body, "", Some(m.timestamp), m.timestamp);
      ReceivePrivateSpec(Screen(old(chatList), old(deletedChats)), archivedChats, from, m.body, m.timestamp);
    }

    /** `handleReceivedGroupMessage` (client/main.js:639-667); `now` is the clock reading the preview shows. */
    method HandleReceivedGroupMessage(m: Message, now: int)
      requires Valid()
      modifies this`chatList, this`deletedChats, this`deletedStore
      ensures Valid()
      ensures Screen(chatList, deletedChats) == ReceiveGroupMessage(Screen(old(chatList), old(deletedChats)), allGroups, m.groupId, m.body, now)
      ensures deletedStore == if m.groupId != "" && m.groupId in old(deletedChats) then Parsed(deletedChats) else old(deletedStore)
    {
      var groupId := m.groupId;
      if groupId != "" && groupId in deletedChats {
        deletedChats := Delete(deletedChats, groupId);
        deletedStore := Parsed(deletedChats);
      }
      var identifier :=
        match Seqs.FirstIndex(allGroups, (g: Group) => g.id == groupId)
        case Some(i) => allGroups[i].name
        case None => groupId;
      UpdateChatPreview(identifier, m.body, groupId, None, now);
    }

    /** `saveGroupToLocalStorage` (client/main.js:1543-1566). */
    method SaveGroupToLocalStorage(g: Group)
      modifies this`groupStore
      ensures groupStore == SaveGroup(old(groupStore), g)
    {
      groupStore := SaveGroup(groupStore, g);
    }

    /**
     * `new-group` and `group-created` (client/main.js:154-182): the group is
     * remembered, its room joined, its chat listed and the group cached.
     */
    method ReceiveGroup(g: Group)
      requires Valid()
      modifies this`allGroups, this`joinRequests, this`chatList, this`groupStore
      ensures Valid()
      ensures allGroups == old(allGroups) + [g]
      ensures joinRequests == old(joinRequests) + [g.id]
      ensures chatList == AddChat(old(chatList), deletedChats, archivedChats, g.id, true, "", None)
      ensures groupStore == SaveGroup(old(groupStore), g)
    {
      allGroups := allGroups + [g];
      joinRequests := joinRequests + [g.id];
      AddChatToList(g.id, true, "", None);
      SaveGroupToLocalStorage(g);
    }

    /**
     * `loadGroupsFromLocalStorage` (client/main.js:1569-1608): each cached
     * group that is not hidden and has the user as a member is remembered,
     * listed and joined again.
     */
    method LoadGroupsFromLocalStorage()
      requires Valid()
      modifies this`allGroups, this`chatList, this`joinRequests
      ensures Valid()
      ensures var admitted := Admitted(CachedGroups(groupStore), deletedChats, archivedChats, me);
        && allGroups == old(allGroups) + admitted
        && chatList == AddGroups(old(chatList), deletedChats, archivedChats, admitted)
        && joinRequests == old(joinRequests) + GroupIds(admitted)
    {
      var admitted, list := RestoreGroups(CachedGroups(groupStore));
      allGroups := allGroups + admitted;
      chatList := list;
      joinRequests := joinRequests + GroupIds(admitted);
    }

    /**
     * The `forEach` of `loadGroupsFromLocalStorage` (client/main.js:1578-1602)
     * over `groups`: the groups kept, and the chat list once each of them
     * has been added to it.
     */
    method RestoreGroups(groups: seq<Group>) returns (admitted: seq<Group>, list: seq<ChatItem>)
      requires Valid()
      ensures admitted == Admitted(groups, deletedChats, archivedChats, me)
      ensures list == AddGroups(chatList, deletedChats, archivedChats, admitted)
    {
      admitted := [];
      list := chatList;
      var i := 0;
      assert groups[..0] == [];
      while i < |groups|
        invariant 0 <= i <= |groups|
        invariant admitted == Admitted(groups[..i], deletedChats, archivedChats, me)
        invariant list == AddGroups(chatList, deletedChats, archivedChats, admitted)
      {
        var g := groups[i];
        PrefixSnoc(groups, i);
        AdmittedSnoc(groups[..i], g, deletedChats, archivedChats, me);
        if g.id in deletedChats || g.id in archivedChats {
          assert admitted + [] == admitted;
        } else if IsMember(g, me) {
          AddGroupsSnoc(chatList, deletedChats, archivedChats, admitted, g);
          list := AddChat(list, deletedChats, archivedChats, g.id, true, "", None);
          admitted := admitted + [g];
        } else {
          assert admitted + [] == admitted;
        }
        i := i + 1;
      }
      assert groups[..i] == groups;
    }

    /** The `messages.forEach` of `loadPreviousChats` (client/main.js:1039-1077). */
    method BuildChatsMap(log: seq<Message>) returns (es: seq<Entry>)
      ensures es == ChatsMap(log, me)
    {
      es := [];
      var i := 0;
      while i < |log|
        invariant 0 <= i <= |log|
        invariant es == ChatsMap(log[..i], me)
      {
        var m := log[i];
        assert log[..i + 1][..i] == log[..i];
        match KeyOf(m, me) {
          case None =>
          case Some(k) =>
            match Slot(es, k) {
              case None =>
                es := es + [Entry(k, m.body, m.timestamp, 1)];
              case Some(p) =>
                if m.timestamp > es[p].timestamp {
                  es := es[p := Entry(k, m.body, m.timestamp, es[p].messageCount + 1)];
                }
            }
        }
        i := i + 1;
      }
      assert log[..i] == log;
    }

    /**
     * `loadPreviousChats` (client/main.js:1023-1114) over the answer
     * `history` of `/api/user-messages/<me>`: cached groups first, then one
     * chat per conversation of the history.
     */
    method LoadPreviousChats(history: seq<Message>)
      requires Valid()
      modifies this`allGroups, this`chatList, this`joinRequests
      ensures Valid()
      ensures var admitted := Admitted(CachedGroups(groupStore), deletedChats, archivedChats, me);
        && allGroups == old(allGroups) + admitted
        && joinRequests == old(joinRequests) + GroupIds(admitted)
        && chatList == AddAll(AddGroups(old(chatList), deletedChats, archivedChats, admitted), deletedChats, archivedChats, ChatsMap(history, me))
    {
      LoadGroupsFromLocalStorage();
      var es := BuildChatsMap(history);
      chatList := AddConversations(es);
    }

    /**
     * The `chatsMap.forEach` of `loadPreviousChats` (client/main.js:1083-1106):
     * the chat list once each conversation, in map order, has been offered
     * to `addChatToList`.
     */
    method AddConversations(es: seq<Entry>) returns (list: seq<ChatItem>)
      requires Valid()
      ensures list == AddAll(chatList, deletedChats, archivedChats, es)
      ensures UniqueIds(list)
    {
      list := chatList;
      var i := 0;
      assert es[..0] == [];
      while i < |es|
        invariant 0 <= i <= |es|
        invariant list == AddAll(chatList, deletedChats, archivedChats, es[..i])
      {
        var e := es[i];
        PrefixSnoc(es, i);
        AddAllSnoc(chatList, deletedChats, archivedChats, es[..i], e);
        if !(e.username in deletedChats || e.username in archivedChats) {
          list := AddChat(list, deletedChats, archivedChats, e.username, false, e.lastMessage, Some(e.timestamp));
        }
        i := i + 1;
      }
      assert es[..i] == es;
    }

    /** `users-list` (client/main.js:118-121). */
    method OnUsersList(users: seq<Contact>)
      requires Valid()
      modifies this`allUsers
      ensures Valid()
      ensures allUsers == UsersList(users, me)
    {
      allUsers := UsersList(users, me);
    }

    /** `user-connected` (client/main.js:124-130). */
    method OnUserConnected(c: Contact)
      requires Valid()
      modifies this`allUsers
      ensures Valid()
      ensures allUsers == UserConnected(old(allUsers), c, me)
    {
      allUsers := UserConnected(allUsers, c, me);
    }

    /** `user-disconnected` (client/main.js:133-137). */
    method OnUserDisconnected(username: string)
      requires Valid()
      modifies this`allUsers
      ensures Valid()
      ensures allUsers == UserDisconnected(old(allUsers), username)
    {
      allUsers := UserDisconnected(allUsers, username);
    }
  }
}
