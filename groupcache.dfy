/**
 * The client's per-user cache of groups (`kios_groups_<username>`,
 * client/main.js:1543-1608): groups are upserted by id as they arrive,
 * and at start-up the cached groups the user still belongs to are
 * listed and their rooms joined again.
 */
module GroupCache {
  import opened Wrappers
  import opened Seqs
  import opened Text
  import opened Messages
  import opened ChatList

  /** What the storage key holds: nothing (or the empty string), a parsed array of groups, or text that fails to parse or parses to `null`. */
  datatype GroupStore = NoGroups | Cached(groups: seq<Group>) | Unreadable

  /** No two cached groups share an id. */
  ghost predicate UniqueGroupIds(groups: seq<Group>) {
    forall i, j :: 0 <= i < j < |groups| ==> groups[i].id != groups[j].id
  }

  /** `groups.findIndex((g) => g.id === id)`. */
  function GroupSlot(groups: seq<Group>, id: string): (r: Option<nat>)
    ensures r.Some? ==> r.value < |groups| && groups[r.value].id == id
    ensures r.Some? ==> forall j :: 0 <= j < r.value ==> groups[j].id != id
    ensures r.None? <==> forall j :: 0 <= j < |groups| ==> groups[j].id != id
  {
    FirstIndex(groups, (g: Group) => g.id == id)
  }

  /**
   * The upsert of `saveGroupToLocalStorage` (client/main.js:1553-1559): the
   * first group with the same id is replaced in place, otherwise the group
   * is appended.
   */
  function UpsertGroup(groups: seq<Group>, g: Group): (r: seq<Group>)
    ensures |r| == |groups| || |r| == |groups| + 1
    ensures GroupSlot(groups, g.id).Some? ==> r == groups[GroupSlot(groups, g.id).value := g]
    ensures GroupSlot(groups, g.id).None? ==> r == groups + [g]
    ensures g in r
    ensures forall x :: x in r ==> x == g || x in groups
    ensures forall x :: x in groups && x.id != g.id ==> x in r
    ensures UniqueGroupIds(groups) ==> UniqueGroupIds(r)
  {
    match GroupSlot(groups, g.id)
    case Some(i) =>
      var r := groups[i := g];
      assert r[i] == g;
      assert forall x :: x in groups && x.id != g.id ==> x in r by {
        forall x | x in groups && x.id != g.id ensures x in r {
          var k :| 0 <= k < |groups| && groups[k] == x;
          assert r[k] == x;
        }
      }
      r
    case None => groups + [g]
  }

  /** Saving a group twice in a row is saving it once. */
  lemma UpsertGroupIdempotent(groups: seq<Group>, g: Group)
    ensures UpsertGroup(UpsertGroup(groups, g), g) == UpsertGroup(groups, g)
  {
    var once := UpsertGroup(groups, g);
    match GroupSlot(groups, g.id)
    case Some(i) =>
      assert once[i] == g;
      assert forall j :: 0 <= j < i ==> once[j] == groups[j];
      assert GroupSlot(once, g.id) == Some(i);
    case None =>
      assert once[|groups|] == g;
      assert forall j :: 0 <= j < |groups| ==> once[j] == groups[j];
      assert GroupSlot(once, g.id) == Some(|groups|);
  }

  /**
   * `saveGroupToLocalStorage` (client/main.js:1543-1566): an empty key
   * starts from no groups; a key that fails to parse is left as it is.
   */
  function SaveGroup(store: GroupStore, g: Group): (r: GroupStore)
    ensures store.Unreadable? ==> r == store
    ensures !store.Unreadable? ==> r.Cached? && g in r.groups
    ensures store.Cached? ==> r == Cached(UpsertGroup(store.groups, g))
    ensures store.NoGroups? ==> r == Cached([g])
  {
    match store
    case NoGroups => Cached(UpsertGroup([], g))
    case Cached(groups) => Cached(UpsertGroup(groups, g))
    case Unreadable => Unreadable
  }

  /** The groups `loadGroupsFromLocalStorage` reads: none when the key is empty or fails to parse. */
  function CachedGroups(store: GroupStore): seq<Group> {
    if store.Cached? then store.groups else []
  }

  /** The user is among the members, ignoring case (client/main.js:1588-1593). */
  predicate IsMember(g: Group, me: string) {
    exists i :: 0 <= i < |g.members| && SameIgnoringCase(g.members[i], me)
  }

  /** A cached group is listed again: it is neither deleted nor archived, and the user belongs to it (client/main.js:1580-1595). */
  predicate Admit(g: Group, deleted: seq<string>, archived: set<string>, me: string) {
    g.id !in deleted && g.id !in archived && IsMember(g, me)
  }

  /** The cached groups that are listed and joined again, in cache order. */
  function Admitted(groups: seq<Group>, deleted: seq<string>, archived: set<string>, me: string): (r: seq<Group>)
    ensures forall g :: g in r <==> g in groups && Admit(g, deleted, archived, me)
    ensures |r| <= |groups|
  {
    if groups == [] then []
    else
      var g := groups[|groups| - 1];
      var init := groups[..|groups| - 1];
      assert groups == init + [g];
      Admitted(init, deleted, archived, me) + (if Admit(g, deleted, archived, me) then [g] else [])
  }

  /** The ids of `groups`, in order: the `join-group` requests sent for them. */
  function GroupIds(groups: seq<Group>): (r: seq<string>)
    ensures |r| == |groups|
    ensures forall i :: 0 <= i < |groups| ==> r[i] == groups[i].id
  {
    seq(|groups|, i requires 0 <= i < |groups| => groups[i].id)
  }

  /** `addChatToList(group, true)` for each group in turn (client/main.js:1597). */
  function AddGroups(list: seq<ChatItem>, deleted: seq<string>, archived: set<string>, groups: seq<Group>): (r: seq<ChatItem>)
    ensures forall k :: k in Ids(r) <==> k in Ids(list) || (k in GroupIds(groups) && k !in deleted && k !in archived)
    ensures UniqueIds(list) ==> UniqueIds(r)
  {
    if groups == [] then list
    else
      var g := groups[|groups| - 1];
      var init := groups[..|groups| - 1];
      assert GroupIds(groups) == GroupIds(init) + [g.id];
      AddChat(AddGroups(list, deleted, archived, init), deleted, archived, g.id, true, "", None)
  }

  /** One more cached group extends `Admitted` by that group exactly when it is admitted. */
  lemma AdmittedSnoc(groups: seq<Group>, g: Group, deleted: seq<string>, archived: set<string>, me: string)
    ensures Admitted(groups + [g], deleted, archived, me) ==
            Admitted(groups, deleted, archived, me) + (if Admit(g, deleted, archived, me) then [g] else [])
  {
    assert (groups + [g])[..|groups|] == groups;
  }

  /** One more admitted group is one more `addChatToList` on top of the earlier ones. */
  lemma AddGroupsSnoc(list: seq<ChatItem>, deleted: seq<string>, archived: set<string>, groups: seq<Group>, g: Group)
    ensures AddGroups(list, deleted, archived, groups + [g]) ==
            AddChat(AddGroups(list, deleted, archived, groups), deleted, archived, g.id, true, "", None)
  {
    assert (groups + [g])[..|groups|] == groups;
  }

  /**
   * After loading the cache, the chat list shows a group key exactly when it
   * showed it before or the user belongs to a cached, non-hidden group with
   * that id.
   */
  lemma LoadGroupsListsMemberGroups(store: GroupStore, list: seq<ChatItem>, deleted: seq<string>, archived: set<string>, me: string, k: string)
    ensures k in Ids(AddGroups(list, deleted, archived, Admitted(CachedGroups(store), deleted, archived, me))) <==>
            k in Ids(list) || exists g :: g in CachedGroups(store) && g.id == k && Admit(g, deleted, archived, me)
  {
    var admitted := Admitted(CachedGroups(store), deleted, archived, me);
    if k in GroupIds(admitted) {
      var i :| 0 <= i < |admitted| && GroupIds(admitted)[i] == k;
      assert admitted[i] in admitted;
    }
    if exists g :: g in CachedGroups(store) && g.id == k && Admit(g, deleted, archived, me) {
      var g :| g in CachedGroups(store) && g.id == k && Admit(g, deleted, archived, me);
      var i :| 0 <= i < |admitted| && admitted[i] == g;
      assert GroupIds(admitted)[i] == k;
    }
  }
}
