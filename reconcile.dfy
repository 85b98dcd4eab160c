/**
 * Conversation reconciliation in `loadPreviousChats`
 * (client/main.js:1036-1108): the user's message history is folded into
 * an insertion-ordered map from counterpart to the latest message, and
 * the map's entries are then added to the chat list one by one.
 */
module Reconcile {
  import opened Wrappers
  import opened Seqs
  import opened Text
  import opened Messages
  import opened ChatList
  import opened History

  /**
   * Whom a message is a conversation with, seen from `me`
   * (client/main.js:1041-1053): the recipient when `me` sent it (checked
   * first), the sender when `me` received it, ignoring case; nobody when
   * neither.
   */
  function Counterpart(m: Message, me: string): (r: Option<string>)
    ensures SameIgnoringCase(m.fromUsername, me) ==> r == Some(m.to)
    ensures !SameIgnoringCase(m.fromUsername, me) && SameIgnoringCase(m.to, me) ==> r == Some(m.fromUsername)
    ensures r.None? <==> !SameIgnoringCase(m.fromUsername, me) && !SameIgnoringCase(m.to, me)
  {
    if SameIgnoringCase(m.fromUsername, me) then Some(m.to)
    else if SameIgnoringCase(m.to, me) then Some(m.fromUsername)
    else None
  }

  /** A usable conversation key: not missing, not "undefined" or "null", not only white space (client/main.js:1056-1061, 563-568). */
  predicate ValidKey(k: string) {
    k != "" && k != "undefined" && k != "null" && !IsBlank(k)
  }

  /** The map key a message contributes: its counterpart, when that is usable. */
  function KeyOf(m: Message, me: string): (r: Option<string>)
    ensures r.Some? <==> Counterpart(m, me).Some? && ValidKey(Counterpart(m, me).value)
    ensures r.Some? ==> r == Counterpart(m, me)
  {
    match Counterpart(m, me)
    case Some(k) => if ValidKey(k) then Some(k) else None
    case None => None
  }

  /** A `chatsMap` value (client/main.js:1070-1075). */
  datatype Entry = Entry(username: string, lastMessage: string, timestamp: int, messageCount: nat)

  /** The keys of the map, in insertion order. */
  function Keys(es: seq<Entry>): (r: seq<string>)
    ensures |r| == |es|
    ensures forall i :: 0 <= i < |es| ==> r[i] == es[i].username
  {
    seq(|es|, i requires 0 <= i < |es| => es[i].username)
  }

  /** A `Map` holds each key once. */
  ghost predicate UniqueKeys(es: seq<Entry>) {
    forall i, j :: 0 <= i < j < |es| ==> es[i].username != es[j].username
  }

  /** Where `chatsMap.get(k)` finds its value. */
  function Slot(es: seq<Entry>, k: string): (r: Option<nat>)
    ensures r.Some? ==> r.value < |es| && es[r.value].username == k
    ensures r.None? <==> k !in Keys(es)
    ensures r.Some? && UniqueKeys(es) ==> forall j :: 0 <= j < |es| && es[j].username == k ==> j == r.value
  {
    FirstIndex(es, (e: Entry) => e.username == k)
  }

  /**
   * One `forEach` step (client/main.js:1039-1077): a message without a
   * usable key is skipped; a new key is appended; a known key is
   * overwritten in place only by a strictly later message, and then its
   * `messageCount` goes up by one.
   */
  function Step(es: seq<Entry>, m: Message, me: string): (r: seq<Entry>)
    ensures |r| == |es| || (KeyOf(m, me).Some? && r == es + [Entry(KeyOf(m, me).value, m.body, m.timestamp, 1)])
    ensures forall k :: k in Keys(r) <==> k in Keys(es) || KeyOf(m, me) == Some(k)
    ensures UniqueKeys(es) ==> UniqueKeys(r)
  {
    match KeyOf(m, me)
    case None => es
    case Some(k) =>
      match Slot(es, k)
      case None =>
        var r := es + [Entry(k, m.body, m.timestamp, 1)];
        assert Keys(r) == Keys(es) + [k];
        r
      case Some(i) =>
        if m.timestamp > es[i].timestamp then
          var r := es[i := Entry(k, m.body, m.timestamp, es[i].messageCount + 1)];
          assert Keys(r) == Keys(es);
          r
        else es
  }

  /** `chatsMap` after the messages of `log`, in order. */
  function ChatsMap(log: seq<Message>, me: string): (r: seq<Entry>)
    ensures UniqueKeys(r)
  {
    if log == [] then [] else Step(ChatsMap(log[..|log| - 1], me), log[|log| - 1], me)
  }

  /** Exactly the usable counterparts of the log's messages become keys. */
  lemma {:induction false} ChatsMapKeys(log: seq<Message>, me: string, k: string)
    ensures k in Keys(ChatsMap(log, me)) <==> exists i :: 0 <= i < |log| && KeyOf(log[i], me) == Some(k)
  {
    if log != [] {
      var init, m := log[..|log| - 1], log[|log| - 1];
      var before := ChatsMap(init, me);
      assert ChatsMap(log, me) == Step(before, m, me);
      ChatsMapKeys(init, me, k);
      assert log == init + [m];
      YieldsSnoc(init, m, me, k);
    }
  }

  /** Some message of `init + [m]` yields `k` exactly when one of `init` does or `m` does. */
  lemma YieldsSnoc(init: seq<Message>, m: Message, me: string, k: string)
    ensures (exists i :: 0 <= i < |init + [m]| && KeyOf((init + [m])[i], me) == Some(k)) <==>
            (exists i :: 0 <= i < |init| && KeyOf(init[i], me) == Some(k)) || KeyOf(m, me) == Some(k)
  {
    var log := init + [m];
    if exists i :: 0 <= i < |log| && KeyOf(log[i], me) == Some(k) {
      var i :| 0 <= i < |log| && KeyOf(log[i], me) == Some(k);
      if i < |init| {
        assert init[i] == log[i];
      }
    }
    if KeyOf(m, me) == Some(k) {
      assert log[|init|] == m;
    }
    if exists i :: 0 <= i < |init| && KeyOf(init[i], me) == Some(k) {
      var i :| 0 <= i < |init| && KeyOf(init[i], me) == Some(k);
      assert log[i] == init[i];
    }
  }




  /**
   * `e` holds message `j` of `log`: a message of its conversation, no
   * message of which is later, and every earlier one strictly earlier.
   */
  ghost predicate LatestAt(log: seq<Message>, me: string, e: Entry, j: nat) {
    && j < |log|
    && KeyOf(log[j], me) == Some(e.username)
    && e.lastMessage == log[j].body
    && e.timestamp == log[j].timestamp
    && (forall i :: 0 <= i < |log| && KeyOf(log[i], me) == Some(e.username) ==> log[i].timestamp <= e.timestamp)
    && (forall i :: 0 <= i < j && KeyOf(log[i], me) == Some(e.username) ==> log[i].timestamp < e.timestamp)
  }

  /** A message that does not beat an entry leaves it holding the same message. */
  lemma ExtendLatest(init: seq<Message>, m: Message, me: string, e: Entry, j: nat)
    requires LatestAt(init, me, e, j)
    requires KeyOf(m, me) != Some(e.username) || m.timestamp <= e.timestamp
    ensures LatestAt(init + [m], me, e, j)
  {
    var log := init + [m];
    forall i | 0 <= i < |log| && KeyOf(log[i], me) == Some(e.username)
      ensures log[i].timestamp <= e.timestamp
    {
      if i < |init| { assert log[i] == init[i]; }
    }
    forall i | 0 <= i < j && KeyOf(log[i], me) == Some(e.username)
      ensures log[i].timestamp < e.timestamp
    {
      assert log[i] == init[i];
    }
  }

  /** One step keeps every entry holding the latest message of its conversation. */
  lemma StepLatest(init: seq<Message>, m: Message, me: string, before: seq<Entry>, e: Entry)
    requires UniqueKeys(before)
    requires forall x :: x in before ==> exists j :: LatestAt(init, me, x, j)
    requires forall k :: k in Keys(before) ==> exists i :: 0 <= i < |init| && KeyOf(init[i], me) == Some(k)
    requires forall i :: 0 <= i < |init| && KeyOf(init[i], me).Some? ==> KeyOf(init[i], me).value in Keys(before)
    requires e in Step(before, m, me)
    ensures exists j :: LatestAt(init + [m], me, e, j)
  {
    var log := init + [m];
    match KeyOf(m, me)
    case None =>
      var j :| LatestAt(init, me, e, j);
      ExtendLatest(init, m, me, e, j);
    case Some(k) =>
      match Slot(before, k)
      case None =>
        if e in before {
          var j :| LatestAt(init, me, e, j);
          assert e.username in Keys(before);
          ExtendLatest(init, m, me, e, j);
        } else {
          assert e == Entry(k, m.body, m.timestamp, 1);
          assert LatestAt(log, me, e, |init|);
        }
      case Some(p) =>
        var prev := before[p];
        var after := Step(before, m, me);
        if m.timestamp > prev.timestamp {
          assert prev in before;
          var j0 :| LatestAt(init, me, prev, j0);
          assert after == before[p := Entry(k, m.body, m.timestamp, prev.messageCount + 1)];
          if e == after[p] {
            forall i | 0 <= i < |log| && KeyOf(log[i], me) == Some(k) ensures log[i].timestamp <= e.timestamp {
              if i < |init| { assert init[i] == log[i]; }
            }
            forall i | 0 <= i < |init| && KeyOf(log[i], me) == Some(k) ensures log[i].timestamp < e.timestamp {
              assert init[i] == log[i];
            }
            assert LatestAt(log, me, e, |init|);
          } else {
            var q :| 0 <= q < |after| && after[q] == e;
            assert q != p && e == before[q];
            assert e in before;
            var j :| LatestAt(init, me, e, j);
            assert e.username != k;
            ExtendLatest(init, m, me, e, j);
          }
        } else {
          var j :| LatestAt(init, me, e, j);
          if e.username == k {
            var q :| 0 <= q < |before| && before[q] == e;
            assert q == p;
          }
          ExtendLatest(init, m, me, e, j);
        }
  }

  /**
   * Latest wins (client/main.js:1066-1077): every entry of `chatsMap` holds
   * the latest message of its conversation, and of several messages with
   * that time the first one seen, since only a strictly later one replaces it.
   */
  lemma {:induction false} ChatsMapLatest(log: seq<Message>, me: string)
    ensures forall e :: e in ChatsMap(log, me) ==> exists j :: LatestAt(log, me, e, j)
  {
    if log == [] { return; }
    var init := log[..|log| - 1];
    var m := log[|log| - 1];
    assert log == init + [m];
    ChatsMapLatest(init, me);
    var before := ChatsMap(init, me);
    forall k | k in Keys(before) ensures exists i :: 0 <= i < |init| && KeyOf(init[i], me) == Some(k) {
      ChatsMapKeys(init, me, k);
    }
    forall i | 0 <= i < |init| && KeyOf(init[i], me).Some? ensures KeyOf(init[i], me).value in Keys(before) {
      ChatsMapKeys(init, me, KeyOf(init[i], me).value);
    }
    forall e | e in ChatsMap(log, me) ensures exists j :: LatestAt(log, me, e, j) {
      StepLatest(init, m, me, before, e);
    }
  }

  /** How many messages of `log` belong to conversation `k`. */
  function Mentions(log: seq<Message>, me: string, k: string): nat {
    if log == [] then 0
    else Mentions(log[..|log| - 1], me, k) + (if KeyOf(log[|log| - 1], me) == Some(k) then 1 else 0)
  }

  /**
   * `messageCount` (client/main.js:1075) is at least one and at most the
   * number of messages of the conversation: it counts replacements, not
   * messages.
   */
  lemma {:induction false} ChatsMapCount(log: seq<Message>, me: string)
    ensures forall e :: e in ChatsMap(log, me) ==> 1 <= e.messageCount <= Mentions(log, me, e.username)
  {
    if log == [] { return; }
    var init := log[..|log| - 1];
    var m := log[|log| - 1];
    ChatsMapCount(init, me);
    var before := ChatsMap(init, me);
    var after := ChatsMap(log, me);
    forall e | e in after ensures 1 <= e.messageCount <= Mentions(log, me, e.username) {
      if e !in before {
        var k := KeyOf(m, me).value;
        match Slot(before, k)
        case None =>
        case Some(p) =>
          assert before[p] in before;
          var q :| 0 <= q < |after| && after[q] == e;
          assert q == p;
      }
    }
  }

  /** Two messages to the same person count once when the later one comes first, as history delivers them. */
  lemma MessageCountIsNotACount()
    ensures var log := [Message(1, PrivateType, "s1", "eva", "ann", "", "hola", 5),
                        Message(2, PrivateType, "s1", "eva", "ann", "", "adios", 3)];
      && ChatsMap(log, "eva") == [Entry("ann", "hola", 5, 1)]
      && Mentions(log, "eva", "ann") == 2
  {
    var m1 := Message(1, PrivateType, "s1", "eva", "ann", "", "hola", 5);
    var m2 := Message(2, PrivateType, "s1", "eva", "ann", "", "adios", 3);
    var log := [m1, m2];
    assert "ann"[0] == 'a' && !IsSpace('a');
    assert !IsBlank("ann");
    assert ValidKey("ann");
    assert KeyOf(m1, "eva") == Some("ann");
    assert KeyOf(m2, "eva") == Some("ann");
    assert log[..1] == [m1];
    assert [m1][..0] == [];
    assert ChatsMap([m1], "eva") == [Entry("ann", "hola", 5, 1)];
  }

  /** Timestamps never increase along the map's entries. */
  ghost predicate EntriesNewestFirst(es: seq<Entry>) {
    forall i, j :: 0 <= i < j < |es| ==> es[i].timestamp >= es[j].timestamp
  }

  /**
   * On history delivered newest first (server/server.js:219) no entry is
   * ever replaced, so the map keeps each conversation's first message and
   * its entries come out newest first too.
   */
  lemma {:induction false} ChatsMapNewestFirst(log: seq<Message>, me: string)
    requires NewestFirst(log)
    ensures EntriesNewestFirst(ChatsMap(log, me))
  {
    if log == [] { return; }
    var init := log[..|log| - 1];
    var m := log[|log| - 1];
    assert NewestFirst(init);
    ChatsMapNewestFirst(init, me);
    ChatsMapLatest(init, me);
    var before := ChatsMap(init, me);
    forall e | e in before ensures e.timestamp >= m.timestamp {
      var j: nat :| LatestAt(init, me, e, j);
      assert init[j] == log[j];
    }
    match KeyOf(m, me)
    case None =>
    case Some(k) =>
      match Slot(before, k)
      case None =>
      case Some(p) =>
        assert before[p] in before;
  }

  /** The entry `addChatToList` makes for a conversation of the map (client/main.js:1093-1105). */
  function ItemOf(e: Entry): ChatItem {
    ChatItem(e.username, Truncate(PreviewText(e.lastMessage, false)), Some(e.timestamp))
  }

  /** `ItemOf` applied to each entry. */
  function Items(es: seq<Entry>): (r: seq<ChatItem>)
    ensures |r| == |es|
    ensures forall i :: 0 <= i < |es| ==> r[i] == ItemOf(es[i])
  {
    seq(|es|, i requires 0 <= i < |es| => ItemOf(es[i]))
  }

  /**
   * The `chatsMap.forEach` that adds the conversations to the chat list
   * (client/main.js:1083-1106), in the map's order; deleted, archived and
   * listed keys are skipped by `addChatToList` itself.
   */
  function AddAll(list: seq<ChatItem>, deleted: seq<string>, archived: set<string>, es: seq<Entry>): (r: seq<ChatItem>)
    ensures forall k :: k in Ids(r) <==> k in Ids(list) || (k in Keys(es) && k !in deleted && k !in archived)
    ensures UniqueIds(list) ==> UniqueIds(r)
  {
    if es == [] then list
    else
      var e := es[|es| - 1];
      var init := es[..|es| - 1];
      assert Keys(es) == Keys(init) + [e.username];
      AddChat(AddAll(list, deleted, archived, init), deleted, archived, e.username, false, e.lastMessage, Some(e.timestamp))
  }

  /** One more conversation is one more `addChatToList` on top of the earlier ones. */
  lemma AddAllSnoc(list: seq<ChatItem>, deleted: seq<string>, archived: set<string>, es: seq<Entry>, e: Entry)
    ensures AddAll(list, deleted, archived, es + [e]) ==
            AddChat(AddAll(list, deleted, archived, es), deleted, archived, e.username, false, e.lastMessage, Some(e.timestamp))
  {
    assert (es + [e])[..|es|] == es;
  }

  /** Adding conversations that are all listed or hidden already changes nothing. */
  lemma {:induction false} AddAllSettled(list: seq<ChatItem>, deleted: seq<string>, archived: set<string>, es: seq<Entry>)
    requires forall k :: k in Keys(es) ==> k in Ids(list) || k in deleted || k in archived
    ensures AddAll(list, deleted, archived, es) == list
  {
    if es != [] {
      var init := es[..|es| - 1];
      assert forall k :: k in Keys(init) ==> k in Keys(es);
      AddAllSettled(list, deleted, archived, init);
      assert es[|es| - 1].username in Keys(es);
    }
  }

  /**
   * Re-running the addition on the same map and the same deleted and
   * archived keys leaves the chat list as it is (client/main.js:341-349,
   * 1085-1090).
   */
  lemma AddAllIdempotent(list: seq<ChatItem>, deleted: seq<string>, archived: set<string>, es: seq<Entry>)
    ensures AddAll(AddAll(list, deleted, archived, es), deleted, archived, es) == AddAll(list, deleted, archived, es)
  {
    AddAllSettled(AddAll(list, deleted, archived, es), deleted, archived, es);
  }

  lemma ReverseSnoc<T>(s: seq<T>, x: T)
    ensures Reverse(s + [x]) == [x] + Reverse(s)
  {
    var a := Reverse(s + [x]);
    var b := [x] + Reverse(s);
    assert forall i :: 0 <= i < |a| ==> a[i] == b[i];
  }

  /** A conversation the chat list does not yet show or hide. */
  predicate Fresh(list: seq<ChatItem>, deleted: seq<string>, archived: set<string>, e: Entry) {
    e.username !in deleted && e.username !in archived && e.username !in Ids(list)
  }

  /** The fresh entries of `es`, in order. */
  function FreshEntries(list: seq<ChatItem>, deleted: seq<string>, archived: set<string>, es: seq<Entry>): (r: seq<Entry>)
    ensures |r| <= |es|
    ensures forall x :: x in r ==> x in es && Fresh(list, deleted, archived, x)
  {
    if es == [] then []
    else
      var e := es[|es| - 1];
      FreshEntries(list, deleted, archived, es[..|es| - 1]) + (if Fresh(list, deleted, archived, e) then [e] else [])
  }

  /**
   * Because `addChatToList` puts each new entry on top (client/main.js:409),
   * the conversations added end up above the old list in the reverse of
   * the map's order.
   */
  lemma {:induction false} AddAllReverses(list: seq<ChatItem>, deleted: seq<string>, archived: set<string>, es: seq<Entry>)
    requires UniqueKeys(es)
    ensures AddAll(list, deleted, archived, es) == Reverse(Items(FreshEntries(list, deleted, archived, es))) + list
  {
    if es == [] { return; }
    var e := es[|es| - 1];
    var init := es[..|es| - 1];
    assert es == init + [e];
    assert UniqueKeys(init);
    AddAllReverses(list, deleted, archived, init);
    AddAllSnoc(list, deleted, archived, init, e);
    assert e.username !in Keys(init);
    AddFreshStep(list, deleted, archived, init, e);
  }

  lemma ItemsSnoc(es: seq<Entry>, e: Entry)
    ensures Items(es + [e]) == Items(es) + [ItemOf(e)]
  {
    var a, b := Items(es + [e]), Items(es) + [ItemOf(e)];
    assert forall i :: 0 <= i < |a| ==> a[i] == b[i];
  }

  /** The inductive step of `AddAllReverses`: one more entry whose key is new. */
  lemma AddFreshStep(list: seq<ChatItem>, deleted: seq<string>, archived: set<string>, init: seq<Entry>, e: Entry)
    requires e.username !in Keys(init)
    requires AddAll(list, deleted, archived, init) == Reverse(Items(FreshEntries(list, deleted, archived, init))) + list
    ensures AddChat(AddAll(list, deleted, archived, init), deleted, archived, e.username, false, e.lastMessage, Some(e.timestamp))
            == Reverse(Items(FreshEntries(list, deleted, archived, init + [e]))) + list
  {
    var mid := AddAll(list, deleted, archived, init);
    var kept := FreshEntries(list, deleted, archived, init);
    assert (init + [e])[..|init|] == init;
    assert e.username in Ids(mid) <==> e.username in Ids(list);
    if Fresh(list, deleted, archived, e) {
      ItemsSnoc(kept, e);
      ReverseSnoc(Items(kept), ItemOf(e));
      ConcatAssoc([ItemOf(e)], Reverse(Items(kept)), list);
    } else {
      assert FreshEntries(list, deleted, archived, init + [e]) == kept;
    }
  }



  /** The fresh entries of a newest-first map are newest first. */
  lemma {:induction false} FreshEntriesNewestFirst(list: seq<ChatItem>, deleted: seq<string>, archived: set<string>, es: seq<Entry>)
    requires EntriesNewestFirst(es)
    ensures EntriesNewestFirst(FreshEntries(list, deleted, archived, es))
  {
    if es != [] {
      var e := es[|es| - 1];
      var init := es[..|es| - 1];
      assert EntriesNewestFirst(init);
      FreshEntriesNewestFirst(list, deleted, archived, init);
      var kept := FreshEntries(list, deleted, archived, init);
      forall x | x in kept ensures x.timestamp >= e.timestamp {
        var i :| 0 <= i < |init| && init[i] == x;
        assert es[i] == x;
      }
    }
  }

  /** Every entry shows a time, and no entry's time is later than that of an entry below it. */
  ghost predicate OldestFirst(list: seq<ChatItem>) {
    && (forall i :: 0 <= i < |list| ==> list[i].stamp.Some?)
    && (forall i, j :: 0 <= i < j < |list| && list[i].stamp.Some? && list[j].stamp.Some? ==> list[i].stamp.value <= list[j].stamp.value)
  }

  lemma ReversedStamps(es: seq<Entry>)
    ensures |Reverse(Items(es))| == |es|
    ensures forall i :: 0 <= i < |es| ==> Reverse(Items(es))[i].stamp == Some(es[|es| - 1 - i].timestamp)
  {
    var items := Items(es);
    var r := Reverse(items);
    forall i | 0 <= i < |es| ensures r[i].stamp == Some(es[|es| - 1 - i].timestamp) {
      var k := |es| - 1 - i;
      assert r[i] == items[k];
      assert items[k] == ItemOf(es[k]);
    }
  }

  lemma ReversedItemsOldestFirst(es: seq<Entry>)
    requires EntriesNewestFirst(es)
    ensures OldestFirst(Reverse(Items(es)))
  {
    var r := Reverse(Items(es));
    ReversedStamps(es);
    forall i, j | 0 <= i < j < |r| ensures r[i].stamp.value <= r[j].stamp.value {
      assert es[|es| - 1 - j].timestamp >= es[|es| - 1 - i].timestamp;
    }
  }

  /**
   * With history newest first (server/server.js:219), the conversations
   * reconciliation adds sit above the entries already listed, with the
   * oldest conversation on top.
   */
  lemma Reconciled(log: seq<Message>, me: string, list: seq<ChatItem>, deleted: seq<string>, archived: set<string>)
    requires NewestFirst(log)
    ensures var r := AddAll(list, deleted, archived, ChatsMap(log, me));
      && |list| <= |r|
      && r[|r| - |list|..] == list
      && OldestFirst(r[..|r| - |list|])
  {
    var es := ChatsMap(log, me);
    AddAllReverses(list, deleted, archived, es);
    ChatsMapNewestFirst(log, me);
    FreshEntriesNewestFirst(list, deleted, archived, es);
    var added := Reverse(Items(FreshEntries(list, deleted, archived, es)));
    ReversedItemsOldestFirst(FreshEntries(list, deleted, archived, es));
    var r := AddAll(list, deleted, archived, es);
    assert r == added + list;
    assert r[..|r| - |list|] == added;
    assert r[|r| - |list|..] == list;
  }
}
