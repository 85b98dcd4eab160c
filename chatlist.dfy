/**
 * The client's chat list (the `#chatsList` element of client/main.js),
 * abstracted to the sequence of its entries from top to bottom. An entry
 * is known by its key (the element id `chat-<key>`), and shows a preview
 * line and a time. Names and avatars only decorate an entry and are not
 * modelled.
 */
module ChatList {
  import opened Wrappers
  import opened Seqs

  /** One entry: its key, its preview line, and the instant its time label shows (None: blank). */
  datatype ChatItem = ChatItem(id: string, preview: string, stamp: Option<int>)

  /** A preview keeps this many characters of the message... */
  const PreviewLimit: nat := 30
  /** ...and marks a cut with this suffix. */
  const Ellipsis := "..."

  /** The preview line of a message (client/main.js:380-382, 743-744). */
  function Truncate(text: string): (r: string)
    ensures |r| <= PreviewLimit + |Ellipsis|
    ensures |text| <= PreviewLimit ==> r == text
    ensures |text| > PreviewLimit ==> |r| == PreviewLimit + |Ellipsis| && r[..PreviewLimit] == text[..PreviewLimit] && r[PreviewLimit..] == Ellipsis
  {
    if |text| > PreviewLimit then text[..PreviewLimit] + Ellipsis else text
  }

  /** A preview of a preview is the same preview: a cut line is cut in the same place again. */
  lemma TruncateIdempotent(text: string)
    ensures Truncate(Truncate(text)) == Truncate(text)
  {
    if |text| > PreviewLimit {
      var r := Truncate(text);
      assert r[..PreviewLimit] == text[..PreviewLimit];
      assert r[..PreviewLimit] + Ellipsis == r;
    }
  }

  /** The line shown when no message is given (client/main.js:366-367). */
  function PreviewText(lastMessage: string, isGroup: bool): (r: string)
    ensures r != ""
    ensures lastMessage != "" ==> r == lastMessage
  {
    if lastMessage != "" then lastMessage
    else if isGroup then "Grupo creado"
    else "Iniciar conversación"
  }

  /** The key of a chat: `chatData.id || chatData.username` (client/main.js:339). */
  function ChatKey(id: string, username: string): (r: string)
    ensures id != "" ==> r == id
    ensures id == "" ==> r == username
    ensures r == "" <==> id == "" && username == ""
  {
    if id != "" then id else username
  }

  /** The keys of the list, top to bottom. */
  function Ids(list: seq<ChatItem>): (r: seq<string>)
    ensures |r| == |list|
    ensures forall i :: 0 <= i < |list| ==> r[i] == list[i].id
  {
    seq(|list|, i requires 0 <= i < |list| => list[i].id)
  }

  /** No key is shown twice. */
  ghost predicate UniqueIds(list: seq<ChatItem>) {
    forall i, j :: 0 <= i < j < |list| ==> list[i].id != list[j].id
  }

  /** An entry on top adds its key in front of the others. */
  lemma IdsCons(c: ChatItem, list: seq<ChatItem>)
    ensures Ids([c] + list) == [c.id] + Ids(list)
  {
    var a, b := Ids([c] + list), [c.id] + Ids(list);
    assert forall i :: 0 <= i < |a| ==> a[i] == b[i];
  }

  /** Position of the entry `document.getElementById("chat-" + id)` finds: the first one with that key. */
  function Position(list: seq<ChatItem>, id: string): (r: Option<nat>)
    ensures r.Some? ==> r.value < |list| && list[r.value].id == id
    ensures r.None? <==> id !in Ids(list)
    ensures r.Some? && UniqueIds(list) ==> forall j :: 0 <= j < |list| && list[j].id == id ==> j == r.value
  {
    FirstIndex(list, (c: ChatItem) => c.id == id)
  }

  /**
   * `addChatToList` (client/main.js:331-410): a key that is deleted,
   * archived or already listed is not added; otherwise the new entry goes
   * on top, showing the truncated preview.
   */
  function AddChat(list: seq<ChatItem>, deleted: seq<string>, archived: set<string>, id: string, isGroup: bool, lastMessage: string, stamp: Option<int>): (r: seq<ChatItem>)
    ensures id in deleted || id in archived || id in Ids(list) ==> r == list
    ensures !(id in deleted || id in archived || id in Ids(list)) ==>
              r == [ChatItem(id, Truncate(PreviewText(lastMessage, isGroup)), stamp)] + list
    ensures forall k :: k in Ids(r) <==> k in Ids(list) || (k == id && id !in deleted && id !in archived)
    ensures UniqueIds(list) ==> UniqueIds(r)
  {
    if id in deleted || id in archived || id in Ids(list) then list
    else
      var r := [ChatItem(id, Truncate(PreviewText(lastMessage, isGroup)), stamp)] + list;
      assert Ids(r) == [id] + Ids(list);
      r
  }

  /** `list` without the entry at `k`. */
  function Drop(list: seq<ChatItem>, k: nat): (r: seq<ChatItem>)
    requires k < |list|
    ensures |r| == |list| - 1
    ensures forall j :: 0 <= j < k ==> r[j] == list[j]
    ensures forall j :: k <= j < |r| ==> r[j] == list[j + 1]
  {
    list[..k] + list[k + 1..]
  }

  /** The keys of `Drop(list, k)` are those of `list` without the one at `k`. */
  lemma DropIds(list: seq<ChatItem>, k: nat)
    requires k < |list|
    ensures Ids(list) == Ids(Drop(list, k))[..k] + [list[k].id] + Ids(Drop(list, k))[k..]
    ensures multiset(Ids(list)) == multiset(Ids(Drop(list, k))) + multiset{list[k].id}
    ensures forall x :: x != list[k].id ==> (x in Ids(list) <==> x in Ids(Drop(list, k)))
  {
    var ids := Ids(Drop(list, k));
    assert Ids(list) == ids[..k] + [list[k].id] + ids[k..];
    assert ids == ids[..k] + ids[k..];
  }

  /** Dropping an entry of a list without repeated keys leaves none repeated and removes that key. */
  lemma DropUnique(list: seq<ChatItem>, k: nat)
    requires k < |list|
    ensures UniqueIds(list) ==> UniqueIds(Drop(list, k)) && list[k].id !in Ids(Drop(list, k))
  {
    var r := Drop(list, k);
    if !UniqueIds(list) { return; }
    forall i, j | 0 <= i < j < |r| ensures r[i].id != r[j].id {
      var i' := if i < k then i else i + 1;
      var j' := if j < k then j else j + 1;
      assert r[i] == list[i'] && r[j] == list[j'];
    }
  }

  /**
   * `updateChatPreview` (client/main.js:729-759) once the key is chosen:
   * the entry with that key, if any, gets the new preview and time and
   * moves to the top; the others keep their order. No entry is created.
   */
  function UpdatePreview(list: seq<ChatItem>, chatId: string, message: string, shown: int): (r: seq<ChatItem>)
    ensures chatId !in Ids(list) ==> r == list
    ensures chatId in Ids(list) ==> |r| == |list| && r[0] == ChatItem(chatId, Truncate(message), Some(shown))
    ensures chatId in Ids(list) ==> r[1..] == Drop(list, Position(list, chatId).value)
    ensures multiset(Ids(r)) == multiset(Ids(list))
    ensures UniqueIds(list) ==> UniqueIds(r)
  {
    match Position(list, chatId)
    case None => list
    case Some(k) =>
      var rest := Drop(list, k);
      var r := [ChatItem(chatId, Truncate(message), Some(shown))] + rest;
      DropIds(list, k);
      DropUnique(list, k);
      IdsCons(r[0], rest);
      r
  }

  /**
   * Two previews in a row for the same chat leave what the second alone
   * would: the chat on top with the later message, the rest in place.
   */
  lemma UpdatePreviewTwice(list: seq<ChatItem>, chatId: string, first: string, t1: int, second: string, t2: int)
    requires UniqueIds(list)
    ensures UpdatePreview(UpdatePreview(list, chatId, first, t1), chatId, second, t2) == UpdatePreview(list, chatId, second, t2)
  {
    if chatId in Ids(list) {
      var once := UpdatePreview(list, chatId, first, t1);
      assert once[0].id == chatId;
      assert Ids(once)[0] == chatId;
      assert Position(once, chatId) == Some(0);
      assert Drop(once, 0) == once[1..];
    }
  }

  /** `chatElement.remove()` (client/main.js:1382): the entry with that key leaves the list. */
  function RemoveChat(list: seq<ChatItem>, chatId: string): (r: seq<ChatItem>)
    ensures chatId !in Ids(list) ==> r == list
    ensures chatId in Ids(list) ==> |r| == |list| - 1
    ensures chatId in Ids(list) ==> r == Drop(list, Position(list, chatId).value)
    ensures UniqueIds(list) ==> chatId !in Ids(r)
    ensures forall k :: k != chatId ==> (k in Ids(r) <==> k in Ids(list))
    ensures UniqueIds(list) ==> UniqueIds(r)
  {
    match Position(list, chatId)
    case None => list
    case Some(k) =>
      DropIds(list, k);
      DropUnique(list, k);
      Drop(list, k)
  }
}
