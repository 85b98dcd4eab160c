/**
 * The client's persisted set of deleted conversations
 * (client/main.js:1504-1541): the array stored under the user's
 * `kios_deleted_<username>` key is read back into a set, and the three
 * reserved keys that stand for a missing username are forced into it.
 */
module DeletedChats {
  import opened OrderedSets

  /**
   * What the storage key holds: nothing (or the empty string), an array
   * that parses, or text whose parsing or conversion to a set throws.
   */
  datatype Stored = Absent | Parsed(items: seq<string>) | Malformed

  /** The keys a missing or unprintable username turns into. */
  const Reserved: seq<string> := ["undefined", "null", ""]

  /** The three `add` calls that follow the read (client/main.js:1519-1521). */
  function WithReserved(s: seq<string>): (r: seq<string>)
    ensures forall y :: y in r <==> y in s || y in Reserved
    ensures NoDups(s) ==> NoDups(r)
  {
    Add(Add(Add(s, "undefined"), "null"), "")
  }

  /**
   * `loadDeletedChats` (client/main.js:1504-1528): the stored keys plus the
   * reserved ones; after a parse error exactly the reserved ones.
   */
  function LoadDeleted(stored: Stored): (r: seq<string>)
    ensures NoDups(r)
    ensures forall y :: y in Reserved ==> y in r
    ensures stored.Malformed? ==> r == Reserved
    ensures stored.Parsed? ==> forall y :: y in r <==> y in stored.items || y in Reserved
    ensures stored.Absent? ==> r == Reserved
  {
    match stored
    case Absent => WithReserved([])
    case Parsed(items) => WithReserved(FromArray(items))
    case Malformed => Reserved
  }

  /** What the key holds afterwards: the loaded set is saved, except after a parse error. */
  function StoredAfterLoad(stored: Stored): (r: Stored)
    ensures stored.Malformed? <==> r.Malformed?
    ensures r.Parsed? ==> r.items == LoadDeleted(stored)
    ensures !stored.Malformed? ==> r == Parsed(LoadDeleted(stored))
  {
    match stored
    case Malformed => Malformed
    case _ => Parsed(LoadDeleted(stored))
  }

  /** Loading twice in a row is loading once: the second read finds what the first one saved. */
  lemma LoadDeletedIdempotent(stored: Stored)
    ensures LoadDeleted(StoredAfterLoad(stored)) == LoadDeleted(stored)
    ensures StoredAfterLoad(StoredAfterLoad(stored)) == StoredAfterLoad(stored)
  {
    if !stored.Malformed? {
      var loaded := LoadDeleted(stored);
      assert StoredAfterLoad(stored) == Parsed(loaded);
      FromArrayOfSet(loaded);
      WithReservedKeeps(loaded);
      assert LoadDeleted(Parsed(loaded)) == loaded;
    }
  }

  /** A set that already holds the reserved keys is left as it is by their `add` calls. */
  lemma WithReservedKeeps(s: seq<string>)
    requires forall y :: y in Reserved ==> y in s
    ensures WithReserved(s) == s
  {
    assert "undefined" in s && "null" in s && "" in s;
  }
}
