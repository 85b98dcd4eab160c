/**
 * The two history queries over the message log (server/server.js:157-226):
 * the messages of one conversation, and every private message of one user,
 * newest first. JavaScript's `Array.prototype.sort` is stable, so messages
 * with equal timestamps keep their log order.
 */
module History {
  import opened Seqs
  import opened Text
  import opened Messages

  /**
   * The `/api/messages/:chatId` filter (server/server.js:163-183): group
   * messages of group `chatId`, and private messages between `currentUser`
   * and `chatId` in either direction, ignoring case. An empty `currentUser`
   * (the query parameter missing) admits no private message.
   */
  predicate InChat(m: Message, chatId: string, currentUser: string) {
    || (m.kind == GroupType && m.groupId == chatId)
    || (m.kind == PrivateType && currentUser != "" &&
        (|| (SameIgnoringCase(m.fromUsername, currentUser) && SameIgnoringCase(m.to, chatId))
         || (SameIgnoringCase(m.fromUsername, chatId) && SameIgnoringCase(m.to, currentUser))))
  }

  /** The answer to `/api/messages/:chatId`: the conversation's messages in log order, each as often as logged. */
  function ChatMessages(log: seq<Message>, chatId: string, currentUser: string): (r: seq<Message>)
    ensures forall m :: m in r <==> m in log && InChat(m, chatId, currentUser)
    ensures forall m :: multiset(r)[m] == if InChat(m, chatId, currentUser) then multiset(log)[m] else 0
  {
    Keep(log, (m: Message) => InChat(m, chatId, currentUser))
  }

  /** The `/api/user-messages/:username` filter (server/server.js:196-216): private messages sent or received by the user, ignoring case. */
  predicate InvolvesUser(m: Message, username: string) {
    m.kind == PrivateType && (SameIgnoringCase(m.fromUsername, username) || SameIgnoringCase(m.to, username))
  }

  /** Timestamps never increase along `s`. */
  ghost predicate NewestFirst(s: seq<Message>) {
    forall i, j :: 0 <= i < j < |s| ==> s[i].timestamp >= s[j].timestamp
  }

  /** The messages of `s` stamped `t`, in order: what a stable sort must not reorder. */
  function StampedAt(s: seq<Message>, t: int): seq<Message> {
    if s == [] then [] else (if s[0].timestamp == t then [s[0]] else []) + StampedAt(s[1..], t)
  }

  /** A message no older than any of a newest-first sequence can go on top of it. */
  lemma NewestOnTop(h: Message, s: seq<Message>)
    requires NewestFirst(s)
    requires forall x :: x in s ==> x.timestamp <= h.timestamp
    ensures NewestFirst([h] + s)
  {
    forall i, j | 0 <= i < j < |[h] + s| ensures ([h] + s)[i].timestamp >= ([h] + s)[j].timestamp {
      if i == 0 {
        assert ([h] + s)[j] == s[j - 1];
        assert s[j - 1] in s;
      } else {
        assert ([h] + s)[i] == s[i - 1] && ([h] + s)[j] == s[j - 1];
      }
    }
  }

  /** `m` placed before the first message of `s` that is not newer than it. */
  function InsertByTime(m: Message, s: seq<Message>): (r: seq<Message>)
    ensures multiset(r) == multiset(s) + multiset{m}
  {
    if s == [] || s[0].timestamp <= m.timestamp then [m] + s
    else
      assert s == [s[0]] + s[1..];
      [s[0]] + InsertByTime(m, s[1..])
  }

  /** Inserting into a newest-first sequence keeps it newest first. */
  lemma {:induction false} InsertByTimeNewestFirst(m: Message, s: seq<Message>)
    requires NewestFirst(s)
    ensures NewestFirst(InsertByTime(m, s))
  {
    if s == [] || s[0].timestamp <= m.timestamp {
      forall x | x in s ensures x.timestamp <= m.timestamp {
        var k :| 0 <= k < |s| && s[k] == x;
      }
      NewestOnTop(m, s);
    } else {
      var rest := InsertByTime(m, s[1..]);
      assert s == [s[0]] + s[1..];
      assert NewestFirst(s[1..]);
      InsertByTimeNewestFirst(m, s[1..]);
      forall x | x in rest ensures x.timestamp <= s[0].timestamp {
        assert x in multiset(rest);
        if x != m {
          assert x in multiset(s[1..]);
          var k :| 0 <= k < |s[1..]| && s[1..][k] == x;
          assert s[k + 1] == x;
        }
      }
      NewestOnTop(s[0], rest);
    }
  }

  /** Stable sort, newest first: the comparator `new Date(b.timestamp) - new Date(a.timestamp)` (server/server.js:219). */
  function SortNewestFirst(s: seq<Message>): (r: seq<Message>)
    ensures NewestFirst(r)
    ensures multiset(r) == multiset(s)
  {
    if s == [] then []
    else
      assert s == [s[0]] + s[1..];
      var rest := SortNewestFirst(s[1..]);
      InsertByTimeNewestFirst(s[0], rest);
      InsertByTime(s[0], rest)
  }

  /** `m` goes ahead of every message sharing its timestamp, and those keep their order. */
  lemma {:induction false} InsertByTimeStable(m: Message, s: seq<Message>, t: int)
    ensures StampedAt(InsertByTime(m, s), t) == (if m.timestamp == t then [m] else []) + StampedAt(s, t)
  {
    if s == [] || s[0].timestamp <= m.timestamp {
      assert ([m] + s)[1..] == s;
    } else {
      var rest := InsertByTime(m, s[1..]);
      InsertByTimeStable(m, s[1..], t);
      assert ([s[0]] + rest)[1..] == rest;
      assert StampedAt(s, t) == (if s[0].timestamp == t then [s[0]] else []) + StampedAt(s[1..], t);
      assert StampedAt([s[0]] + rest, t) == (if s[0].timestamp == t then [s[0]] else []) + StampedAt(rest, t);
      if m.timestamp == t {
        assert s[0].timestamp != t;
        assert StampedAt([s[0]] + rest, t) == [m] + StampedAt(s[1..], t);
      } else {
        assert StampedAt(rest, t) == StampedAt(s[1..], t);
      }
    }
  }

  /** The sort is stable: the messages sharing any one timestamp come out in log order. */
  lemma {:induction false} SortStable(s: seq<Message>, t: int)
    ensures StampedAt(SortNewestFirst(s), t) == StampedAt(s, t)
  {
    if s != [] {
      SortStable(s[1..], t);
      InsertByTimeStable(s[0], SortNewestFirst(s[1..]), t);
    }
  }

  /** The answer to `/api/user-messages/:username`. */
  function UserMessages(log: seq<Message>, username: string): seq<Message> {
    SortNewestFirst(Keep(log, (m: Message) => InvolvesUser(m, username)))
  }

  /**
   * `/api/user-messages/:username` answers with exactly the user's private
   * messages (each as often as logged), newest first, and messages with
   * equal timestamps in log order.
   */
  lemma UserMessagesSpec(log: seq<Message>, username: string)
    ensures var r := UserMessages(log, username);
      && NewestFirst(r)
      && (forall m :: multiset(r)[m] == if InvolvesUser(m, username) then multiset(log)[m] else 0)
      && (forall t :: StampedAt(r, t) == StampedAt(Keep(log, (m: Message) => InvolvesUser(m, username)), t))
  {
    var kept := Keep(log, (m: Message) => InvolvesUser(m, username));
    forall t ensures StampedAt(UserMessages(log, username), t) == StampedAt(kept, t) {
      SortStable(kept, t);
    }
  }
}
