/**
 The message store behind the chat server: the `Message` collection, seen as
 the sequence of stored records in insertion order, with the three queries the
 handlers issue (src/App.jsx:293-296, 309-313, 340): append a record, read a
 room's messages ordered by `createdAt` with a limit, and delete all messages
 of a room. The store assigns a record's id and `createdAt`; here both are
 inputs of the append.
 */
module HistoryStore {
  import opened Presence

  type MessageId = string

  /** A stored chat message. */
  datatype Message = Message(id: MessageId, room: RoomId, sender: string, text: string, createdAt: int)

  /** The `Message` collection in insertion order. */
  type Collection = seq<Message>

  /** `.limit(100)` of the history read on join. */
  const HistoryLimit: nat := 100

  function Min(a: nat, b: nat): nat
  {
    if a <= b then a else b
  }

  /** `Message.find({ room: r })` before sorting: the room's records in insertion order. */
  function InRoom(c: Collection, r: RoomId): (h: seq<Message>)
    ensures |h| <= |c|
    ensures forall m :: m in h ==> m.room == r && m in c
    ensures forall m :: m in c && m.room == r ==> m in h
  {
    if |c| == 0 then []
    else
      var h := InRoom(c[..|c| - 1], r);
      if c[|c| - 1].room == r then h + [c[|c| - 1]] else h
  }

  /** `Message.deleteMany({ room: r })`. */
  function DeleteRoom(c: Collection, r: RoomId): (c': Collection)
    ensures |c'| <= |c|
    ensures forall m :: m in c' <==> m in c && m.room != r
  {
    if |c| == 0 then []
    else
      var rest := DeleteRoom(c[..|c| - 1], r);
      if c[|c| - 1].room == r then rest else rest + [c[|c| - 1]]
  }

  /** Messages ordered by ascending creation time. */
  ghost predicate SortedByCreatedAt(s: seq<Message>)
  {
    forall i, j :: 0 <= i < j < |s| ==> s[i].createdAt <= s[j].createdAt
  }

  /** Every message of `s` is created no earlier than `t`. */
  ghost predicate NotBefore(t: int, s: seq<Message>)
  {
    forall k :: 0 <= k < |s| ==> t <= s[k].createdAt
  }

  /**
   Inserts `m` into a sorted sequence after every message created no later
   than it, so that messages with equal timestamps keep their insertion order.
   */
  function InsertByCreatedAt(s: seq<Message>, m: Message): (r: seq<Message>)
    requires SortedByCreatedAt(s)
    ensures SortedByCreatedAt(r)
    ensures multiset(r) == multiset(s) + multiset{m}
    ensures |r| == |s| + 1
    ensures forall x :: x in r ==> x == m || x in s
  {
    if |s| == 0 then [m]
    else if m.createdAt < s[0].createdAt then [m] + s
    else
      var tail := InsertByCreatedAt(s[1..], m);
      assert s == [s[0]] + s[1..];
      HeadBeforeInserted(s, m, tail);
      ConsSorted(s[0], tail);
      [s[0]] + tail
  }

  /** The head of a sorted sequence precedes everything inserted into its tail. */
  lemma HeadBeforeInserted(s: seq<Message>, m: Message, tail: seq<Message>)
    requires SortedByCreatedAt(s) && |s| > 0 && s[0].createdAt <= m.createdAt
    requires forall x :: x in tail ==> x == m || x in s[1..]
    ensures NotBefore(s[0].createdAt, tail)
  {
    forall k | 0 <= k < |tail|
      ensures s[0].createdAt <= tail[k].createdAt
    {
      assert tail[k] in tail;
      if tail[k] != m {
        var j :| 0 <= j < |s[1..]| && s[1..][j] == tail[k];
        assert s[j + 1] == tail[k];
      }
    }
  }

  /** A sorted sequence stays sorted under a head no later than all its messages. */
  lemma ConsSorted(x: Message, s: seq<Message>)
    requires SortedByCreatedAt(s) && NotBefore(x.createdAt, s)
    ensures SortedByCreatedAt([x] + s)
  {
    var r := [x] + s;
    forall i, j | 0 <= i < j < |r|
      ensures r[i].createdAt <= r[j].createdAt
    {
      assert r[j] == s[j - 1];
      if i > 0 {
        assert r[i] == s[i - 1];
      }
    }
  }

  /** `.sort({ createdAt: 1 })`, stable with respect to insertion order. */
  function SortByCreatedAt(s: seq<Message>): (r: seq<Message>)
    ensures SortedByCreatedAt(r)
    ensures multiset(r) == multiset(s)
    ensures |r| == |s|
  {
    if |s| == 0 then []
    else
      assert s == s[..|s| - 1] + [s[|s| - 1]];
      InsertByCreatedAt(SortByCreatedAt(s[..|s| - 1]), s[|s| - 1])
  }

  /** The first `k` entries of a sorted sequence are sorted and drawn from it. */
  lemma SortedPrefix(s: seq<Message>, k: nat)
    requires SortedByCreatedAt(s) && k <= |s|
    ensures SortedByCreatedAt(s[..k])
    ensures multiset(s[..k]) <= multiset(s)
  {
    assert s == s[..k] + s[k..];
  }

  /**
   The messages a sorted sequence drops when cut to its first `k` entries are
   no older than any it keeps.
   */
  lemma SortedPrefixKeepsOldest(s: seq<Message>, k: nat)
    requires SortedByCreatedAt(s) && k <= |s|
    ensures forall i, m :: 0 <= i < k && m in multiset(s) - multiset(s[..k]) ==>
              s[i].createdAt <= m.createdAt
  {
    assert s == s[..k] + s[k..];
    assert multiset(s) - multiset(s[..k]) == multiset(s[k..]);
    forall i, m | 0 <= i < k && m in multiset(s[k..])
      ensures s[i].createdAt <= m.createdAt
    {
      assert m in s[k..];
      var j :| 0 <= j < |s[k..]| && s[k..][j] == m;
      assert s[k + j] == m;
    }
  }

  /**
   The first `k` messages of a log sorted by creation time: sorted, drawn from
   the log, and no older than any message of the log they leave out.
   */
  lemma OldestOfLog(log: seq<Message>, k: nat)
    requires k <= |log|
    ensures var h := SortByCreatedAt(log)[..k];
            && SortedByCreatedAt(h)
            && multiset(h) <= multiset(log)
            && (forall m :: m in h ==> m in log)
            && (forall i, m :: 0 <= i < |h| && m in multiset(log) - multiset(h) ==> h[i].createdAt <= m.createdAt)
  {
    var ordered := SortByCreatedAt(log);
    SortedPrefix(ordered, k);
    SortedPrefixKeepsOldest(ordered, k);
    var h := ordered[..k];
    forall m | m in h
      ensures m in log
    {
      assert m in multiset(log);
    }
  }

  /**
   The history sent to a joining socket:
   `Message.find({ room: r }).sort({ createdAt: 1 }).limit(100)`.
   It holds only messages of room `r`, ascending by creation time, at most
   100 of them, and every message of the room that it leaves out is no older
   than any message it holds.
   */
  function ReadHistory(c: Collection, r: RoomId): (h: seq<Message>)
    ensures |h| == Min(HistoryLimit, |InRoom(c, r)|)
    ensures forall m :: m in h ==> m.room == r && m in c
    ensures SortedByCreatedAt(h)
    ensures multiset(h) <= multiset(InRoom(c, r))
    ensures forall i, m :: 0 <= i < |h| && m in multiset(InRoom(c, r)) - multiset(h) ==>
              h[i].createdAt <= m.createdAt
  {
    var log := InRoom(c, r);
    var k := Min(HistoryLimit, |log|);
    OldestOfLog(log, k);
    SortByCreatedAt(log)[..k]
  }

  /** Appending a record extends its own room's log by it and leaves every other room's log alone. */
  lemma InRoomAppend(c: Collection, m: Message, r: RoomId)
    ensures InRoom(c + [m], r) == if m.room == r then InRoom(c, r) + [m] else InRoom(c, r)
  {
    assert (c + [m])[..|c + [m]| - 1] == c;
  }

  /**
   The room filter keeps each of the room's stored messages exactly as often
   as it is stored, and nothing else: its length is the room's message count.
   */
  lemma {:induction false} InRoomCounts(c: Collection, r: RoomId)
    ensures forall m :: multiset(InRoom(c, r))[m] == if m.room == r then multiset(c)[m] else 0
  {
    if |c| > 0 {
      var init := c[..|c| - 1];
      var last := c[|c| - 1];
      InRoomCounts(init, r);
      assert c == init + [last];
      assert multiset(c) == multiset(init) + multiset{last};
    }
  }

  /** The room filter distributes over concatenation of collections. */
  lemma {:induction false} InRoomConcat(a: Collection, b: Collection, r: RoomId)
    ensures InRoom(a + b, r) == InRoom(a, r) + InRoom(b, r)
  {
    if |b| == 0 {
      assert a + b == a;
    } else {
      var init := b[..|b| - 1];
      var last := b[|b| - 1];
      assert b == init + [last];
      assert a + b == (a + init) + [last];
      InRoomConcat(a, init, r);
      InRoomAppend(a + init, last, r);
      InRoomAppend(init, last, r);
    }
  }

  /** After `deleteMany` the room has no messages, and every other room keeps its log. */
  lemma {:induction false} DeleteRoomClears(c: Collection, r: RoomId, q: RoomId)
    ensures InRoom(DeleteRoom(c, r), r) == []
    ensures q != r ==> InRoom(DeleteRoom(c, r), q) == InRoom(c, q)
  {
    if |c| > 0 {
      var init := c[..|c| - 1];
      var last := c[|c| - 1];
      DeleteRoomClears(init, r, q);
      if last.room != r {
        InRoomAppend(DeleteRoom(init, r), last, r);
        InRoomAppend(DeleteRoom(init, r), last, q);
      }
    }
  }

  /** A collection with no message of room `r` is left unchanged by deleting `r`. */
  lemma {:induction false} DeleteAbsentRoom(c: Collection, r: RoomId)
    requires forall k :: 0 <= k < |c| ==> c[k].room != r
    ensures DeleteRoom(c, r) == c
  {
    if |c| > 0 {
      var init := c[..|c| - 1];
      var last := c[|c| - 1];
      assert forall k :: 0 <= k < |init| ==> init[k] == c[k];
      DeleteAbsentRoom(init, r);
      assert DeleteRoom(c, r) == DeleteRoom(init, r) + [last];
      assert c == init + [last];
    }
  }

  /** Deleting a room's messages a second time changes nothing. */
  lemma DeleteRoomIdempotent(c: Collection, r: RoomId)
    ensures DeleteRoom(DeleteRoom(c, r), r) == DeleteRoom(c, r)
  {
    var d := DeleteRoom(c, r);
    assert forall k :: 0 <= k < |d| ==> d[k] in d;
    DeleteAbsentRoom(d, r);
  }

  /** Inserting a message no earlier than all others appends it. */
  lemma {:induction false} InsertLatest(s: seq<Message>, m: Message)
    requires SortedByCreatedAt(s)
    requires forall k :: 0 <= k < |s| ==> s[k].createdAt <= m.createdAt
    ensures InsertByCreatedAt(s, m) == s + [m]
  {
    if |s| > 0 {
      InsertLatest(s[1..], m);
      assert s == [s[0]] + s[1..];
    }
  }

  /** Sorting a log that is already in creation order returns it unchanged. */
  lemma {:induction false} SortKeepsSorted(s: seq<Message>)
    requires SortedByCreatedAt(s)
    ensures SortByCreatedAt(s) == s
  {
    if |s| > 0 {
      var init, last := SplitLast(s);
      SortKeepsSorted(init);
      InsertLatest(init, last);
    }
  }

  /**
   A non-empty sorted sequence is a sorted prefix followed by a message no
   earlier than any message of the prefix.
   */
  lemma SplitLast(s: seq<Message>) returns (init: seq<Message>, last: Message)
    requires SortedByCreatedAt(s) && |s| > 0
    ensures init == s[..|s| - 1] && last == s[|s| - 1] && s == init + [last]
    ensures SortedByCreatedAt(init)
    ensures forall k :: 0 <= k < |init| ==> init[k].createdAt <= last.createdAt
  {
    init, last := s[..|s| - 1], s[|s| - 1];
    assert forall k :: 0 <= k < |init| ==> init[k] == s[k];
  }

  /**
   When a room's messages were stored in creation order (the clock never ran
   backwards), the history read on join is the first `min(100, n)` messages
   ever stored for the room: the oldest ones, in the order they were sent.
   */
  lemma HistoryIsOldestPrefix(c: Collection, r: RoomId)
    requires SortedByCreatedAt(InRoom(c, r))
    ensures ReadHistory(c, r) == InRoom(c, r)[..Min(HistoryLimit, |InRoom(c, r)|)]
  {
    SortKeepsSorted(InRoom(c, r));
  }

  /** Message ids are distinct. */
  ghost predicate DistinctIds(s: seq<Message>)
  {
    forall i, j :: 0 <= i < j < |s| ==> s[i].id != s[j].id
  }

  /**
   Once a room holds more than 100 messages stored in creation order, the
   newest one is not in the history a joining socket receives.
   */
  lemma HistoryOmitsNewest(c: Collection, r: RoomId)
    requires SortedByCreatedAt(InRoom(c, r)) && DistinctIds(InRoom(c, r))
    requires |InRoom(c, r)| > HistoryLimit
    ensures InRoom(c, r)[|InRoom(c, r)| - 1] !in ReadHistory(c, r)
  {
    var log := InRoom(c, r);
    HistoryIsOldestPrefix(c, r);
  }
}
