/**
 * The message store (MessageRepository.java over the `Message` document of Message.java):
 * saved messages in insertion order, and the derived query
 * `findTop10ByOrderByTimestampDesc`, the ten newest messages, newest first.
 */
module Repository {

  /** A stored message: the id the store gave it, its content, and its timestamp as an instant on an integer clock. */
  datatype Message = Message(id: nat, content: string, timestamp: int)

  /** How many messages the query returns at most. */
  const QueryLimit := 10

  function Min(a: nat, b: nat): nat
  {
    if a <= b then a else b
  }

  /**
   * Inserts `x` into a newest-first list in front of the first message that is not newer
   * than it, so `x` goes ahead of the messages with the same timestamp.
   */
  function Insert(x: Message, r: seq<Message>): (t: seq<Message>)
    ensures |t| == |r| + 1
  {
    if r == [] || r[0].timestamp <= x.timestamp then [x] + r else [r[0]] + Insert(x, r[1..])
  }

  /** The store sorted by timestamp, newest first; among equal timestamps, the earliest stored first. */
  function SortNewestFirst(s: seq<Message>): (t: seq<Message>)
    ensures |t| == |s|
  {
    if s == [] then [] else Insert(s[0], SortNewestFirst(s[1..]))
  }

  /** The `k` newest messages of `s`, newest first: the sorted store cut after `k` messages. */
  function Newest(s: seq<Message>, k: nat): (r: seq<Message>)
    ensures |r| == Min(k, |s|)
  {
    SortNewestFirst(s)[..Min(k, |s|)]
  }

  /** `findTop10ByOrderByTimestampDesc`. */
  function Top10(s: seq<Message>): seq<Message>
  {
    Newest(s, QueryLimit)
  }

  /** Non-increasing timestamps: newest first. */
  predicate NewestFirst(r: seq<Message>)
  {
    forall i, j :: 0 <= i < j < |r| ==> r[j].timestamp <= r[i].timestamp
  }

  lemma {:induction false} InsertPermutes(x: Message, r: seq<Message>)
    ensures multiset(Insert(x, r)) == multiset(r) + multiset{x}
  {
    if r != [] && r[0].timestamp > x.timestamp {
      InsertPermutes(x, r[1..]);
      assert r == [r[0]] + r[1..];
    }
  }

  /** Sorting neither adds nor drops a message. */
  lemma {:induction false} SortPermutes(s: seq<Message>)
    ensures multiset(SortNewestFirst(s)) == multiset(s)
  {
    if s != [] {
      SortPermutes(s[1..]);
      InsertPermutes(s[0], SortNewestFirst(s[1..]));
      assert s == [s[0]] + s[1..];
    }
  }

  /** Inserting keeps a newest-first list newest first. */
  lemma {:induction false} InsertKeepsOrder(x: Message, r: seq<Message>)
    requires NewestFirst(r)
    ensures NewestFirst(Insert(x, r))
  {
    if r != [] && r[0].timestamp > x.timestamp {
      var rest := r[1..];
      var tail := Insert(x, rest);
      InsertKeepsOrder(x, rest);
      assert tail[0] == x || tail[0] == r[1];
      assert tail[0].timestamp <= r[0].timestamp;
      var t := [r[0]] + tail;
      forall i, j | 0 <= i < j < |t| ensures t[j].timestamp <= t[i].timestamp {
        if i == 0 {
          assert t[j] == tail[j - 1];
        } else {
          assert t[i] == tail[i - 1] && t[j] == tail[j - 1];
        }
      }
    }
  }

  /** The sorted store is newest first. */
  lemma {:induction false} SortIsOrdered(s: seq<Message>)
    ensures NewestFirst(SortNewestFirst(s))
  {
    if s != [] {
      SortIsOrdered(s[1..]);
      InsertKeepsOrder(s[0], SortNewestFirst(s[1..]));
    }
  }

  /** The result is ordered newest first. */
  lemma NewestIsOrdered(s: seq<Message>, k: nat)
    ensures NewestFirst(Newest(s, k))
  {
    SortIsOrdered(s);
  }

  /** Every returned message is taken from the store, each stored message at most once. */
  lemma NewestFromStore(s: seq<Message>, k: nat)
    ensures multiset(Newest(s, k)) <= multiset(s)
  {
    var t := SortNewestFirst(s);
    var n := Min(k, |s|);
    SortPermutes(s);
    assert t == t[..n] + t[n..];
    assert multiset(t) == multiset(t[..n]) + multiset(t[n..]);
  }

  /** When the store holds no more than `k` messages, the query returns all of them. */
  lemma NewestTakesAllWhenFew(s: seq<Message>, k: nat)
    requires |s| <= k
    ensures multiset(Newest(s, k)) == multiset(s)
  {
    SortPermutes(s);
    assert Newest(s, k) == SortNewestFirst(s);
  }

  /** Every stored message that is not returned is no newer than every returned one. */
  predicate NoneNewerLeftOut(s: seq<Message>, r: seq<Message>)
  {
    forall x, y :: x in s && x !in r && y in r ==> x.timestamp <= y.timestamp
  }

  /** No message left out of the result is newer than any message in it. */
  lemma NewestDominatesRest(s: seq<Message>, k: nat)
    ensures NoneNewerLeftOut(s, Newest(s, k))
  {
    var t := SortNewestFirst(s);
    var n := Min(k, |s|);
    var r := Newest(s, k);
    SortPermutes(s);
    SortIsOrdered(s);
    assert forall i :: 0 <= i < n ==> t[i] == r[i];
    forall x, y | x in s && x !in r && y in r ensures x.timestamp <= y.timestamp {
      assert x in multiset(t);
      var p :| 0 <= p < |t| && t[p] == x;
      var q :| 0 <= q < |r| && r[q] == y;
      assert t[q] == y;
    }
  }

  /** The query's contract: at most ten messages (fewer only when the store is smaller), newest first, all from the store, none newer left out. */
  lemma Top10Properties(s: seq<Message>)
    ensures |Top10(s)| <= QueryLimit && |Top10(s)| == Min(QueryLimit, |s|)
    ensures NewestFirst(Top10(s))
    ensures forall y :: y in Top10(s) ==> y in s
    ensures NoneNewerLeftOut(s, Top10(s))
  {
    NewestIsOrdered(s, QueryLimit);
    NewestFromStore(s, QueryLimit);
    NewestDominatesRest(s, QueryLimit);
    forall y | y in Top10(s) ensures y in s {
      assert y in multiset(Top10(s));
    }
  }

  /**
   * Ids are unique and below the next id to hand out: the guarantee the store's
   * generated ids give.
   */
  ghost predicate IdsFresh(records: seq<Message>, nextId: nat)
  {
    && (forall i :: 0 <= i < |records| ==> records[i].id < nextId)
    && (forall i, j :: 0 <= i < j < |records| ==> records[i].id != records[j].id)
  }

  class MessageRepository {
    var records: seq<Message>
    var nextId: nat

    ghost predicate Valid()
      reads this
    {
      IdsFresh(records, nextId)
    }

    constructor ()
      ensures Valid() && records == []
    {
      records := [];
      nextId := 0;
    }

    /** `save` of a new document: it is given a fresh id and appended; the stored copy is returned. */
    method Save(content: string, timestamp: int) returns (saved: Message)
      requires Valid()
      modifies this
      ensures Valid()
      ensures saved.content == content && saved.timestamp == timestamp
      ensures records == old(records) + [saved]
      ensures forall i :: 0 <= i < |old(records)| ==> old(records)[i].id != saved.id
    {
      saved := Message(nextId, content, timestamp);
      records := records + [saved];
      nextId := nextId + 1;
    }

    /** `findTop10ByOrderByTimestampDesc`: reads the store and changes nothing. */
    method FindTop10ByOrderByTimestampDesc() returns (r: seq<Message>)
      ensures r == Top10(records)
      ensures |r| == Min(QueryLimit, |records|) && NewestFirst(r)
    {
      Top10Properties(records);
      r := Top10(records);
    }
  }
}
