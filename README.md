# kios chat — a Dafny model of its server routing and client chat list

kios is a small Socket.IO chat. A Node.js server (`server/server.js`) keeps a
registry of connected sockets, a user store, a message log and a group log,
and routes private and group messages. A browser client (`client/main.js`)
keeps a chat list, a set of deleted chat keys and a per-user cache of groups
in local storage, and rebuilds the chat list from the user's message history
at login.

This project models both halves.

- **Server.** The class `Server.ChatServer` holds the server state:
  - `connectedUsers`: the socket registry, a JavaScript object kept in
    insertion order, as a sequence of sessions.
  - `rooms`: Socket.IO room membership.
  - `activeRooms`.
  - `users`, `messages` and `groups`: the three JSON stores, as sequences.
  - `outbox`: every emit in order, as (target, event, payload).

  Each event handler is a method. Its new state is given by pure
  functions in `Sessions`, `UserStore`, `Routing` and `History`, and
  those modules prove what the handlers promise.
- **Client.** The class `Client.ChatClient` holds the client state:
  - the chat list, as a sequence of entries;
  - `deletedChats`, a JavaScript `Set`, so an insertion-ordered sequence
    without repeats;
  - `archivedChats`, which the client never adds to, so it is an input;
  - the contacts and the groups;
  - the two local-storage keys;
  - the `join-group` requests sent.

  The list operations are in `ChatList`, storage in `DeletedChats` and
  `GroupCache`, reconciliation of history in `Reconcile`, the message
  handlers in `Inbox`, and the form helpers in `Compose`.

Shared pieces:
- `Text`: JavaScript `toLowerCase` for ASCII and Latin-1, ECMAScript
  `trim`, and decimal digits.
- `Seqs`: first index, filter and reverse.
- `Messages`: the message and group records.

Names are compared the way the code compares them:
- exactly, for session eviction, the user-store upsert, `users-list` and
  `user-disconnected`;
- ignoring case, for private-message delivery, group-member lookup, login,
  sign-up duplicates, the history filters and reconciliation.

Where the prose design and the code disagree, the model follows the code:

- Session eviction and the user-store upsert on `register` are
  case-sensitive (server/server.js:314-316, 334). "Bob" and "bob" can
  therefore both be live, and both can be stored.
- A live group message revives its group id from the deleted set even when
  that id is one of the reserved keys "null" or "undefined". Only a missing
  id is skipped (client/main.js:644-648).
- A group message for a group whose chat is not listed does not add the
  chat. It only refreshes an existing entry (client/main.js:738-758).
- The design asks for a chat list ordered most recently active first. The
  rebuilt list is not. History arrives newest first (server/server.js:219),
  `chatsMap` keeps that order (client/main.js:1036-1078), and
  `addChatToList` puts each chat on top (client/main.js:409,
  1083-1106). The conversations added by reconciliation therefore end up
  oldest first above the old list, with the newest one lowest.
  `Reconcile.Reconciled` proves this order.

## Model

| member | source | states |
|---|---|---|
| Text.LowerStr | client/main.js:1041-1043 | folds every capital letter and keeps every other character, position by position |
| Text.Trim | client/main.js:495-497 | the result is the slice left once white space is removed at both ends; it neither starts nor ends with white space; it is empty exactly when the input is blank |
| Text.Digits | server/server.js:434 | the decimal rendering of a clock value is non-empty, all digits, and "0" exactly for zero |
| Text.DigitsValue | server/server.js:434 | read back as a decimal number, the rendering of a clock value is that value |
| Text.DigitsInjective | server/server.js:434 | different clock values render as different digit strings |
| Sessions.AvatarOrDefault | server/server.js:327 | the given avatar when there is one, else a non-empty default |
| Sessions.IndexOfId | server/server.js:558-560 | finds the session of a socket exactly when the socket is registered |
| Sessions.FindByName | server/server.js:314-316 | the first session whose username equals the given one exactly; none only when no session has it |
| Sessions.FindByNameIgnoringCase | server/server.js:410-412 | the first session whose username matches ignoring case; none only when no session matches |
| Sessions.Put | server/server.js:324-330 | setting a key keeps socket ids distinct, stores the new session, keeps every other socket's session and adds nothing else |
| Sessions.Remove | server/server.js:580 | `delete` removes exactly the sessions of that socket and keeps distinct ids and one socket per username |
| Sessions.Evict | server/server.js:313-321 | nothing is added, every session of another name is kept, and when one socket per username held, no socket other than the registering one keeps the name |
| Sessions.RegisterSpec | server/server.js:313-330 | after `register` the socket holds the new online session, no other socket holds that exact username, every unrelated session is kept, and one socket per username still holds |
| Sessions.DisconnectSpec | server/server.js:557-584 | `disconnect` removes exactly the socket's session, and a socket without one leaves the registry unchanged |
| Sessions.OthersOnlineSpec | server/server.js:362-367 | the `users-list` payload holds, marked online, exactly the sessions whose username differs from the newcomer's |
| UserStore.FindExact | server/server.js:334 | the first record whose username equals the given one exactly |
| UserStore.RegisterAccount | server/server.js:243-270 | sign-up is refused exactly when some stored name matches ignoring case; otherwise exactly one record is appended with the default avatar |
| UserStore.RegisterAccountKeepsNamesUnique | server/server.js:243-270 | an accepted sign-up keeps stored names unique ignoring case and grows the store by one |
| UserStore.Login | server/server.js:285-304 | login succeeds exactly when some record matches the name ignoring case and the password exactly, and returns such a record |
| UserStore.SignUpThenLogin | server/server.js:243-304 | after an accepted sign-up, logging in under any capitalisation of the name with the same password succeeds |
| UserStore.UpsertOnRegister | server/server.js:333-350 | the store grows by at most one, by one exactly when no record has that exact username; unrelated records are unchanged; some record for the user is online with this socket |
| UserStore.MarkOffline | server/server.js:562-569 | no record is added or removed; unrelated records are unchanged; an existing record of the user goes offline with the disconnect time |
| Routing.Join | server/server.js:484 | joining adds the socket to that room and changes no other room |
| Routing.JoinIdempotent | server/server.js:484 | joining a room twice is joining it once |
| Routing.CopiesAppend | server/server.js:409-423 | the copies a socket receives from two batches of emits add up |
| Routing.WelcomeSpec | server/server.js:355-372 | the new socket gets one `registered` and one `users-list`; every other connection, the evicted socket included, gets exactly one `user-connected` and nothing else |
| Routing.PrivateFanOutSpec | server/server.js:409-423 | exactly one `message-sent` goes back to the sender; `receive-message` goes out once, to the first session matching the recipient ignoring case, when there is one, and never otherwise |
| Routing.GroupFanOutExactlyOnce | server/server.js:505-513 | every room member and the sender receive exactly one copy of a group message, even a sender outside the room; nobody else receives one |
| Routing.LiveSockets | server/server.js:463-467 | one lookup per listed member, in order |
| Routing.Notices | server/server.js:468-473 | every notice is a `new-group` carrying the group to a single socket, at most one per member |
| Routing.NewGroupNoticesSpec | server/server.js:462-475 | a socket receives `new-group` exactly as often as it is the live session of a listed member, the creator included, and it is in the room exactly when it receives one |
| Routing.CreateGroupRoom | server/server.js:457-470 | the group's room holds the creator's socket plus every listed member's live socket; other rooms are unchanged |
| History.ChatMessages | server/server.js:163-183 | `/api/messages` keeps, each as often as logged, exactly the group messages of that group and the private messages between the two users in either direction, ignoring case |
| History.InsertByTime | server/server.js:219 | inserting adds exactly the one message to the elements |
| History.InsertByTimeNewestFirst | server/server.js:219 | inserting into a newest-first sequence keeps it newest first |
| History.SortNewestFirst | server/server.js:219 | the sort is a permutation in newest-first order |
| History.SortStable | server/server.js:219 | messages with equal timestamps keep their log order |
| History.UserMessagesSpec | server/server.js:196-219 | `/api/user-messages` holds exactly the user's private messages, each as often as logged, newest first, ties in log order |
| Server.GroupIdFor | server/server.js:434 | a group id is "group_" followed by the creation time's digits |
| Server.GroupIdForInjective | server/server.js:434 | groups created at different times get different ids |
| Server.ChatServer.constructor | server/server.js:31-32 | a fresh server has no sessions, rooms or emits, and the stores as found |
| Server.ChatServer.RegisterUser | server/server.js:238-273 | the store is updated and the success answer sent, or the store kept and the name-taken answer sent |
| Server.ChatServer.LoginUser | server/server.js:278-305 | the success answer carries the matching record's name and avatar; otherwise the failure answer |
| Server.ChatServer.Register | server/server.js:310-375 | the registry and store become their specified successors, one socket per username still holds, and the outbox grows by exactly the `register` answers |
| Server.ChatServer.GetUsers | server/server.js:380-383 | the whole user store goes to the asking socket |
| Server.ChatServer.PrivateMessage | server/server.js:389-426 | exactly one private message is logged whether or not the recipient is online, followed by the private fan-out |
| Server.ChatServer.CreateGroup | server/server.js:431-478 | one group is logged with a "group_" id, its room is opened, the creator is answered, and members are joined and notified |
| Server.ChatServer.AdmitMembers | server/server.js:462-475 | the member loop builds the specified room and the `new-group` notices |
| Server.ChatServer.AdmitMember | server/server.js:463-474 | one member joins the room and gets a `new-group` notice when it has a live session, and nothing happens otherwise |
| Server.ChatServer.JoinGroup | server/server.js:483-486 | the socket joins the room with no membership check |
| Server.ChatServer.GroupMessage | server/server.js:491-516 | exactly one group message is logged, followed by the group fan-out |
| Server.ChatServer.Disconnect | server/server.js:557-584 | a registered socket's user goes offline in the store, one `user-disconnected` goes to everyone and the session is dropped; any other socket changes nothing |
| OrderedSets.Add | client/main.js:1373 | `Set.add` adds the key at the end unless present and keeps the set without repeats |
| OrderedSets.Delete | client/main.js:571 | `Set.delete` removes exactly that key and keeps the set without repeats |
| OrderedSets.FromArray | client/main.js:1511 | `new Set(array)` holds exactly the array's keys, without repeats |
| OrderedSets.FromArrayOfSet | client/main.js:1509-1535 | reading back a saved set gives the same set in the same order |
| DeletedChats.WithReserved | client/main.js:1519-1521 | the three `add` calls put in the reserved keys and nothing else |
| DeletedChats.LoadDeleted | client/main.js:1504-1528 | the reserved keys are always deleted; the result is exactly the stored keys plus them; an unreadable or absent value gives exactly the reserved keys |
| DeletedChats.StoredAfterLoad | client/main.js:1523-1527 | a readable or absent value is rewritten as the loaded set; an unreadable one is left as it was |
| DeletedChats.LoadDeletedIdempotent | client/main.js:1504-1528 | loading twice is loading once, both for the set and for what is stored |
| ChatList.Truncate | client/main.js:380-382 | a preview of at most 30 characters is kept; a longer one is its first 30 characters followed by "..." |
| ChatList.TruncateIdempotent | client/main.js:743-744 | truncating a preview again changes nothing |
| ChatList.PreviewText | client/main.js:366-367 | the preview line is the message when there is one, else a non-empty placeholder |
| ChatList.ChatKey | client/main.js:339 | the key is the id when present, else the username |
| ChatList.Position | client/main.js:735 | finds the entry of a key exactly when it is listed, and it is the only one |
| ChatList.AddChat | client/main.js:331-410 | a deleted, archived or listed key leaves the list unchanged; any other key goes on top with its truncated preview; keys stay unique |
| ChatList.UpdatePreview | client/main.js:729-759 | a listed chat moves to the top with the new truncated preview and time, the others keep their order; an unlisted key changes nothing |
| ChatList.UpdatePreviewTwice | client/main.js:729-759 | two updates of one chat leave what the second alone leaves |
| ChatList.RemoveChat | client/main.js:1382 | exactly the chat with that key leaves the list; every other chat keeps its contents and its place in order |
| Reconcile.Counterpart | client/main.js:1041-1053 | the recipient when the user sent the message, checked first, else the sender when the user received it, both ignoring case; nothing otherwise |
| Reconcile.KeyOf | client/main.js:1055-1064 | a counterpart becomes a key exactly when it is not missing, "undefined", "null" or blank |
| Reconcile.Step | client/main.js:1066-1077 | one message adds its key at the end when new, else keeps the length; keys stay unique |
| Reconcile.ChatsMapKeys | client/main.js:1039-1077 | a key is in the map exactly when some message of the history yields it |
| Reconcile.ChatsMapLatest | client/main.js:1066-1077 | every entry holds a message with the greatest timestamp for its key, and the first such message on ties |
| Reconcile.ChatsMapCount | client/main.js:1070-1075 | `messageCount` is at least one and at most the number of messages with that key |
| Reconcile.MessageCountIsNotACount | client/main.js:1070-1075 | two messages with one counterpart, newest first, leave a count of one |
| Reconcile.ChatsMapNewestFirst | client/main.js:1039-1077 | on history delivered newest first, the map's entries are in newest-first order |
| Reconcile.AddAll | client/main.js:1083-1106 | the list gains exactly the map's keys that are neither deleted nor archived, and keys stay unique |
| Reconcile.AddAllSettled | client/main.js:1083-1106 | when every key is listed or hidden, adding the map changes nothing |
| Reconcile.AddAllIdempotent | client/main.js:1083-1106 | running reconciliation again on the same map and state leaves the list unchanged |
| Reconcile.FreshEntries | client/main.js:1085-1090 | the entries kept are entries of the map that are neither listed nor hidden |
| Reconcile.AddAllReverses | client/main.js:1083-1106 | reconciliation puts the new entries on top in the reverse of the map's order |
| Reconcile.Reconciled | client/main.js:1036-1108 | with history newest first, the old list stays at the bottom and the new chats above it are oldest first |
| GroupCache.UpsertGroup | client/main.js:1553-1559 | a cached group with the same id is replaced in place, else the group is appended; nothing else changes and ids stay unique |
| GroupCache.UpsertGroupIdempotent | client/main.js:1553-1559 | saving the same group twice is saving it once |
| GroupCache.SaveGroup | client/main.js:1543-1566 | an absent key starts an empty cache, a readable one is upserted, an unreadable one is left alone |
| GroupCache.Admitted | client/main.js:1578-1602 | the cached groups kept are exactly those neither deleted nor archived whose members include the user ignoring case |
| GroupCache.AddGroups | client/main.js:1597 | the list gains exactly the admitted group ids that are not hidden |
| GroupCache.LoadGroupsListsMemberGroups | client/main.js:1569-1608 | after loading, a key is listed exactly when it was, or when it is a cached, non-hidden group the user belongs to |
| Compose.ValidateGroup | client/main.js:830-849 | a blank name and an empty selection are each refused with their message; otherwise the request carries the trimmed name, the selection plus the user, and the user as creator |
| Compose.ValidatedGroupShape | client/main.js:830-849 | an accepted request has a non-blank name and lists the user last among its members |
| Compose.OutgoingText | client/main.js:495-497 | a message is sent exactly when a chat is open and the input is not blank, and it is the trimmed input |
| Compose.TrimIdempotent | client/main.js:495-497 | trimming trimmed text changes nothing |
| Compose.InsertEmoji | client/main.js:1153-1162 | the emoji is placed at the cursor (or at the end when the cursor is past it), the rest of the text is kept on either side, and the cursor lands after the emoji |
| Compose.InsertEmojiRoundTrip | client/main.js:1153-1162 | removing the inserted emoji gives back the original text |
| Inbox.UsersList | client/main.js:118-121 | the contact list is exactly the received users other than the user, compared exactly |
| Inbox.UserConnected | client/main.js:124-130 | a newcomer is appended unless it is the user |
| Inbox.UserDisconnected | client/main.js:133-137 | exactly the contacts with that name leave |
| Inbox.SenderKeyAsWritten | client/main.js:578-593 | a sender with no matching contact is keyed by name; otherwise the first contact matching ignoring case gives the key, its id when it has one |
| Inbox.SenderChatGoesStale | client/main.js:578-633 | as written, a contact carrying a socket id gets a chat under that id, and the sender's later message leaves that chat unchanged |
| Inbox.ReceivePrivateSpec | client/main.js:551-634 | an invalid sender changes nothing; a valid one leaves the deleted set and its chat is on top with the new preview, unless the chat is unlisted and archived; keys stay unique |
| Inbox.ReceiveGroupMessageSpec | client/main.js:639-667 | a group message takes its id out of the deleted set and refreshes a listed chat on top; an unlisted group stays off the list |
| Client.ChatClient.constructor | client/main.js:45-57 | a fresh client has an empty list and empty sets over the stored keys |
| Client.ChatClient.LoadDeletedChats | client/main.js:1504-1528 | the deleted set and its storage key become their loaded values |
| Client.ChatClient.DeleteChat | client/main.js:1373-1374 | the key is added to the deleted set and the set is saved |
| Client.ChatClient.FinishDeleteChat | client/main.js:1376-1382 | the chat leaves the list |
| Client.ChatClient.AddChatToList | client/main.js:331-410 | the list becomes its `AddChat` successor and keys stay unique |
| Client.ChatClient.UpdateChatPreview | client/main.js:729-759 | the key is the group id when given, else the identifier; the time shown is the message's, else the clock's |
| Client.ChatClient.HandleReceivedMessage | client/main.js:551-634 | the list and deleted set follow the corrected receive; the set is saved exactly when a valid sender was revived |
| Client.ChatClient.HandleReceivedGroupMessage | client/main.js:639-667 | the list and deleted set follow the group receive; the set is saved exactly when a present group id was revived |
| Client.ChatClient.SaveGroupToLocalStorage | client/main.js:1543-1566 | the group cache becomes its `SaveGroup` successor |
| Client.ChatClient.ReceiveGroup | client/main.js:154-182 | the group is remembered, its room requested, its chat listed and the group cached |
| Client.ChatClient.LoadGroupsFromLocalStorage | client/main.js:1569-1608 | exactly the admitted cached groups are remembered, listed and joined, in cache order |
| Client.ChatClient.RestoreGroups | client/main.js:1578-1602 | the loop computes the admitted groups and the list after adding them |
| Client.ChatClient.BuildChatsMap | client/main.js:1039-1077 | the loop builds exactly `ChatsMap` of the history |
| Client.ChatClient.AddConversations | client/main.js:1083-1106 | the loop leaves exactly `AddAll` of the map over the current list, with keys unique |
| Client.ChatClient.LoadPreviousChats | client/main.js:1023-1114 | cached groups are restored first, then every conversation of the history is added in map order |
| Client.ChatClient.OnUsersList | client/main.js:118-121 | the contacts become the received users other than the user |
| Client.ChatClient.OnUserConnected | client/main.js:124-130 | the newcomer is appended unless it is the user |
| Client.ChatClient.OnUserDisconnected | client/main.js:133-137 | the contacts with that name leave |

## Left out

- I/O and transport are not modelled: Socket.IO, Express routes and static files, `fs` reads and writes, `fetch`, `localStorage`, and JSON parsing. Stores and storage keys are values. A storage value is absent, readable or unreadable. An array of strings or groups stands for what parses. In the deleted-chats key a stored JSON `null` reads as an empty set, because `new Set(null)` is empty. In the group key a stored `null` counts as unreadable, because `findIndex` and `forEach` throw on it and the `catch` leaves storage and the list unchanged.
- Failures in saving to disk or to storage are swallowed by the code, so they are not modelled.
- The clock is not modelled. `Date.now()` and `new Date()` are an integer `now` parameter. Message and group ids are not claimed to be unique, because two events in one millisecond share an id. Dates that do not parse are not modelled.
- Socket.IO removes a closed socket from its rooms. That happens inside the library, and the model does not show it.
- Typing relay, timers, notifications, modals, tabs, search, the emoji picker UI, message display, `loadMessages`, `openChat` and `formatLastSeen` are left out: they are timing or presentation.
- The 200 ms delete animation is not modelled. `Client.ChatClient.FinishDeleteChat` is the step it delays.
- Strings are sequences of Unicode code points, not UTF-16 code units. `substring(0, 30)` and the cursor arithmetic of the emoji splice therefore count an astral character as one, where JavaScript counts two.
- Text.LowerStr: folds only ASCII and Latin-1 capitals; the rest of Unicode case mapping is not modelled.
- Missing message fields (`fromUsername`, `to`, `groupId`) are modelled as the empty string. Most of their uses go through `x || ""` or `!x`. The `to` lookup on the server is the exception, and it is listed below. A group message whose `groupId` is present but empty is treated as one without a `groupId`: JavaScript would take "" out of the deleted set, and the model does not.
- A cached group whose `members` is missing is treated as one with no members.
- A group without an id: the server always assigns `group_<time>` (server/server.js:434), so only a group stored or sent by other means can lack one. The model keys such a group as "". Since "" is a reserved deleted key, such a group is hidden from the list and not joined. The code instead tests `deletedChats.has(undefined)`, which is false, and keys the chat `chat-undefined` through `id || username` (client/main.js:339). It then lists and joins such a group, both when loading the cache (client/main.js:1580-1598) and on `new-group` (client/main.js:154-161).
- Records and payloads keep only the fields the core reads or writes. Chat elements keep their key, preview and time. The online dot, avatar and display name are not modelled.
- Plaintext password storage is kept as the code has it, a compared string.
- Server.ChatServer.PrivateMessage: a message without a `to` field is modelled as one with `to == ""`, so it still gets its `message-sent`. In the code, `to.toLowerCase()` at server/server.js:411 throws on a missing `to` as soon as one session is connected. The message is then already saved, and neither `receive-message` nor `message-sent` is sent.
- Client.ChatClient.HandleReceivedMessage: follows the corrected receive (Inbox.ReceivePrivate), which keys a new sender's chat by the sender's username. The code keys it by the matching contact's socket id when it has one (client/main.js:584-589, 339). That behaviour is Inbox.ReceivePrivateAsWritten, and the "## Findings" row shows where it goes wrong.

## Findings

| source | as written | input that shows it | evidently intended | confidence | as-written member | corrected member |
|---|---|---|---|---|---|---|
| client/main.js:578-593, 627-632 | when a message arrives from a sender with no chat, `addChatToList(senderUser)` keys the new chat by `senderUser.id || senderUser.username`. A contact received through `user-connected` carries its socket id (server/server.js:324-330, 372), so the chat is keyed by that socket id, while `updateChatPreview(fromUsername)` looks for the chat under the username | contact `{id: "s2", username: "bob"}` and two messages from "bob": the first gives chat "s2", and the second leaves it unchanged with the old preview | the chat of a private message is keyed by the sender's username, so later messages update it and move it to the top | not executed | Inbox.SenderChatGoesStale | Inbox.ReceivePrivateSpec |
