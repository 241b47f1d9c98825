/**
 * The `messages` table and the queries over it. Each derived query reads as "filter the table,
 * then sort by `sentAt`"; the database fixes no order among equal timestamps, so the contracts
 * promise sortedness and "a permutation of the selected rows", never one particular order.
 */
module MessageRepository {
  import opened Common
  import opened Seqs
  import opened Table
  import opened Messages

  datatype Direction = Asc | Desc

  /** `a` may come before `b` in an `ORDER BY sentAt` of direction `d`. */
  predicate InOrder(a: MessageRecord, b: MessageRecord, d: Direction) {
    match d
    case Asc => a.sentAt <= b.sentAt
    case Desc => a.sentAt >= b.sentAt
  }

  predicate SortedBySentAt(s: seq<MessageRecord>, d: Direction) {
    forall i, j :: 0 <= i < j < |s| ==> InOrder(s[i], s[j], d)
  }

  /** Every element of `t` may follow `h`: then `[h] + t` is sorted when `t` is. */
  lemma PrependSorted(h: MessageRecord, t: seq<MessageRecord>, d: Direction)
    requires SortedBySentAt(t, d)
    requires forall y :: y in t ==> InOrder(h, y, d)
    ensures SortedBySentAt([h] + t, d)
  {
    var r := [h] + t;
    forall i, j | 0 <= i < j < |r| ensures InOrder(r[i], r[j], d) {
      assert r[j] == t[j - 1];
      if i > 0 { assert r[i] == t[i - 1]; }
    }
  }

  function InsertBySentAt(x: MessageRecord, s: seq<MessageRecord>, d: Direction): (r: seq<MessageRecord>)
    requires SortedBySentAt(s, d)
    ensures SortedBySentAt(r, d)
    ensures multiset(r) == multiset(s) + multiset{x}
  {
    if s == [] then [x]
    else if InOrder(x, s[0], d) then
      PrependSorted(x, s, d);
      [x] + s
    else
      assert s == [s[0]] + s[1..];
      var rest := InsertBySentAt(x, s[1..], d);
      HeadPrecedesInsert(x, s, d, rest);
      PrependSorted(s[0], rest, d);
      [s[0]] + rest
  }

  /** Once `x` does not go before the head of `s`, the head goes before everything the insertion produced. */
  lemma HeadPrecedesInsert(x: MessageRecord, s: seq<MessageRecord>, d: Direction, rest: seq<MessageRecord>)
    requires SortedBySentAt(s, d) && s != [] && !InOrder(x, s[0], d)
    requires multiset(rest) == multiset(s[1..]) + multiset{x}
    ensures forall y :: y in rest ==> InOrder(s[0], y, d)
  {
    forall y | y in rest ensures InOrder(s[0], y, d) {
      assert y in multiset(rest);
      if y != x {
        assert y in multiset(s[1..]);
        var j :| 0 <= j < |s[1..]| && s[1..][j] == y;
        assert s[j + 1] == y;
      }
    }
  }

  /** The `ORDER BY sentAt` clause: a sorted permutation of its input. */
  function SortBySentAt(s: seq<MessageRecord>, d: Direction): (r: seq<MessageRecord>)
    ensures SortedBySentAt(r, d)
    ensures multiset(r) == multiset(s)
  {
    if s == [] then []
    else
      assert s == [s[0]] + s[1..];
      InsertBySentAt(s[0], SortBySentAt(s[1..], d), d)
  }

  /** `findByReceiverUsernameOrderBySentAtDesc`. */
  function FindByReceiverUsernameOrderBySentAtDesc(rows: seq<MessageRecord>, receiverUsername: string): (r: seq<MessageRecord>)
    ensures forall m :: m in r <==> m in rows && m.receiverUsername == receiverUsername
    ensures forall m :: multiset(r)[m] == if m.receiverUsername == receiverUsername then multiset(rows)[m] else 0
    ensures SortedBySentAt(r, Desc)
  {
    SortBySentAt(Filter(rows, (m: MessageRecord) => m.receiverUsername == receiverUsername), Desc)
  }

  /** `findBySenderUsernameOrderBySentAtDesc`. */
  function FindBySenderUsernameOrderBySentAtDesc(rows: seq<MessageRecord>, senderUsername: string): (r: seq<MessageRecord>)
    ensures forall m :: m in r <==> m in rows && m.senderUsername == senderUsername
    ensures forall m :: multiset(r)[m] == if m.senderUsername == senderUsername then multiset(rows)[m] else 0
    ensures SortedBySentAt(r, Desc)
  {
    SortBySentAt(Filter(rows, (m: MessageRecord) => m.senderUsername == senderUsername), Desc)
  }

  /** `findByItemIdOrderBySentAtAsc`: every message on the item, whoever sent or received it. */
  function FindByItemIdOrderBySentAtAsc(rows: seq<MessageRecord>, itemId: int): (r: seq<MessageRecord>)
    ensures forall m :: m in r <==> m in rows && m.itemId == itemId
    ensures forall m :: multiset(r)[m] == if m.itemId == itemId then multiset(rows)[m] else 0
    ensures SortedBySentAt(r, Asc)
  {
    SortBySentAt(Filter(rows, (m: MessageRecord) => m.itemId == itemId), Asc)
  }

  /** `findByReceiverUsernameAndIsReadFalse`: no `OrderBy`, so the rows come in table order. */
  function FindByReceiverUsernameAndIsReadFalse(rows: seq<MessageRecord>, receiverUsername: string): (r: seq<MessageRecord>)
    ensures forall m :: m in r <==> m in rows && m.receiverUsername == receiverUsername && !m.isRead
    ensures forall m :: multiset(r)[m] == if m.receiverUsername == receiverUsername && !m.isRead then multiset(rows)[m] else 0
  {
    Filter(rows, (m: MessageRecord) => m.receiverUsername == receiverUsername && !m.isRead)
  }

  /** The selection of the conversation query: `And` binds tighter than `Or`. */
  predicate OnItemFromOrTo(m: MessageRecord, itemId1: int, sender: string, itemId2: int, receiver: string) {
    (m.itemId == itemId1 && m.senderUsername == sender) || (m.itemId == itemId2 && m.receiverUsername == receiver)
  }

  /** `findByItemIdAndSenderUsernameOrItemIdAndReceiverUsernameOrderBySentAtAsc`. */
  function FindByItemIdAndSenderUsernameOrItemIdAndReceiverUsernameOrderBySentAtAsc(
    rows: seq<MessageRecord>, itemId1: int, sender: string, itemId2: int, receiver: string): (r: seq<MessageRecord>)
    ensures forall m :: m in r <==> m in rows && OnItemFromOrTo(m, itemId1, sender, itemId2, receiver)
    ensures forall m :: multiset(r)[m] == if OnItemFromOrTo(m, itemId1, sender, itemId2, receiver) then multiset(rows)[m] else 0
    ensures SortedBySentAt(r, Asc)
  {
    SortBySentAt(Filter(rows, (m: MessageRecord) => OnItemFromOrTo(m, itemId1, sender, itemId2, receiver)), Asc)
  }

  /** Rows of a well-formed table are pairwise distinct, since their ids are. */
  lemma WellFormedDistinct(rows: seq<MessageRecord>, nextId: nat)
    requires WellFormed(rows, MessageId, nextId)
    ensures Distinct(rows)
  {
    forall i, j | 0 <= i < j < |rows| ensures rows[i] != rows[j] {
      assert MessageId(rows[i]) < MessageId(rows[j]);
    }
  }

  /** A query result whose multiset lies inside the table's repeats no message. */
  lemma SelectionDistinct(rows: seq<MessageRecord>, nextId: nat, r: seq<MessageRecord>)
    requires WellFormed(rows, MessageId, nextId)
    requires forall m :: multiset(r)[m] <= multiset(rows)[m]
    ensures Distinct(r)
  {
    WellFormedDistinct(rows, nextId);
    assert multiset(r) <= multiset(rows);
    DistinctBelow(r, rows);
  }

  /** No finder returns a message twice: each selects from a table whose ids are distinct. */
  lemma ReceivedDistinct(rows: seq<MessageRecord>, nextId: nat, username: string)
    requires WellFormed(rows, MessageId, nextId)
    ensures Distinct(FindByReceiverUsernameOrderBySentAtDesc(rows, username))
  {
    SelectionDistinct(rows, nextId, FindByReceiverUsernameOrderBySentAtDesc(rows, username));
  }

  lemma SentDistinct(rows: seq<MessageRecord>, nextId: nat, username: string)
    requires WellFormed(rows, MessageId, nextId)
    ensures Distinct(FindBySenderUsernameOrderBySentAtDesc(rows, username))
  {
    SelectionDistinct(rows, nextId, FindBySenderUsernameOrderBySentAtDesc(rows, username));
  }

  lemma OnItemDistinct(rows: seq<MessageRecord>, nextId: nat, itemId: int)
    requires WellFormed(rows, MessageId, nextId)
    ensures Distinct(FindByItemIdOrderBySentAtAsc(rows, itemId))
  {
    SelectionDistinct(rows, nextId, FindByItemIdOrderBySentAtAsc(rows, itemId));
  }

  lemma UnreadDistinct(rows: seq<MessageRecord>, nextId: nat, username: string)
    requires WellFormed(rows, MessageId, nextId)
    ensures Distinct(FindByReceiverUsernameAndIsReadFalse(rows, username))
  {
    SelectionDistinct(rows, nextId, FindByReceiverUsernameAndIsReadFalse(rows, username));
  }

  lemma ConversationDistinct(rows: seq<MessageRecord>, nextId: nat, itemId1: int, sender: string, itemId2: int, receiver: string)
    requires WellFormed(rows, MessageId, nextId)
    ensures Distinct(FindByItemIdAndSenderUsernameOrItemIdAndReceiverUsernameOrderBySentAtAsc(rows, itemId1, sender, itemId2, receiver))
  {
    SelectionDistinct(rows, nextId, FindByItemIdAndSenderUsernameOrItemIdAndReceiverUsernameOrderBySentAtAsc(rows, itemId1, sender, itemId2, receiver));
  }

  /** The `messages` table behind the repository: its rows and the identity counter. */
  class MessageStore {
    var rows: seq<MessageRecord>
    var nextId: nat

    ghost predicate Valid()
      reads this
    {
      nextId >= 1 && WellFormed(rows, MessageId, nextId)
    }

    constructor ()
      ensures Valid() && rows == [] && nextId == 1
    {
      rows, nextId := [], 1;
    }

    /**
     * `save`: an entity without an id is new and is persisted, any other is merged. Persisting
     * inserts a complete entity under the next id and writes that id back into the entity; a
     * null in a `nullable = false` column fails and stores nothing.
     */
    method Save(m: Message) returns (r: Result<MessageRecord, StoreError>)
      requires Valid()
      modifies this, m
      ensures Valid()
      ensures !old(m.Complete()) ==> r == Err(NullColumn) && rows == old(rows) && nextId == old(nextId) && unchanged(m)
      ensures old(m.Complete()) && old(m.id).None? ==>
        && r == Ok(old(m.Snapshot(nextId)))
        && rows == old(rows) + [r.value] && nextId == old(nextId) + 1
        && m.id == Some(r.value.id) && m.Complete() && m.Snapshot(r.value.id) == r.value
      ensures old(m.id).Some? ==> unchanged(m) && nextId == old(nextId)
      ensures old(m.Complete()) && old(m.id).Some? && Lookup(old(rows), MessageId, old(m.id).value).Some? ==>
        r == Ok(m.Snapshot(m.id.value)) && rows == Replace(old(rows), MessageId, r.value)
      ensures old(m.Complete()) && old(m.id).Some? && Lookup(old(rows), MessageId, old(m.id).value).None? ==>
        r == Err(StaleEntity) && rows == old(rows)
    {
      if m.id.Some? {
        r := Merge(m);
        return;
      }
      if !m.Complete() {
        return Err(NullColumn);
      }
      var rec := m.Snapshot(nextId);
      AppendWellFormed(rows, MessageId, nextId, rec);
      rows, nextId := rows + [rec], nextId + 1;
      m.id := Some(rec.id);
      r := Ok(rec);
    }

    /**
     * The merge half of `save`, for an entity that carries an id: a complete entity overwrites
     * the row with its id; a null in a `nullable = false` column, or an id naming no row, fails
     * and stores nothing.
     */
    method Merge(m: Message) returns (r: Result<MessageRecord, StoreError>)
      requires Valid() && m.id.Some?
      modifies this
      ensures Valid() && nextId == old(nextId)
      ensures !m.Complete() ==> r == Err(NullColumn) && rows == old(rows)
      ensures m.Complete() && Lookup(old(rows), MessageId, m.id.value).Some? ==>
        r == Ok(m.Snapshot(m.id.value)) && rows == Replace(old(rows), MessageId, r.value)
      ensures m.Complete() && Lookup(old(rows), MessageId, m.id.value).None? ==>
        r == Err(StaleEntity) && rows == old(rows)
    {
      if !m.Complete() {
        return Err(NullColumn);
      }
      if Lookup(rows, MessageId, m.id.value).Some? {
        var rec := m.Snapshot(m.id.value);
        rows := Replace(rows, MessageId, rec);
        r := Ok(rec);
      } else {
        r := Err(StaleEntity);
      }
    }

    /** `findById`: a freshly loaded entity for the stored row, or nothing. */
    method FindById(id: int) returns (m: Option<Message>)
      ensures m.None? <==> Lookup(rows, MessageId, id).None?
      ensures m.Some? ==> fresh(m.value) && m.value.Complete() && m.value.id == Some(Lookup(rows, MessageId, id).value.id)
      ensures m.Some? ==> m.value.Snapshot(m.value.id.value) == Lookup(rows, MessageId, id).value
    {
      var found := Lookup(rows, MessageId, id);
      if found.None? {
        return None;
      }
      var e := new Message.Loaded(found.value);
      m := Some(e);
    }

    /** Materialises a query result as a list of freshly loaded, distinct entities. */
    method Load(recs: seq<MessageRecord>) returns (es: seq<Message>)
      ensures |es| == |recs|
      ensures forall j :: 0 <= j < |es| ==> fresh(es[j]) && es[j].Complete() && es[j].id == Some(recs[j].id)
      ensures forall j :: 0 <= j < |es| ==> es[j].Snapshot(recs[j].id) == recs[j]
      ensures forall i, j :: 0 <= i < j < |es| ==> es[i] != es[j]
    {
      es := [];
      var k := 0;
      while k < |recs|
        invariant k <= |recs| && |es| == k
        invariant forall j :: 0 <= j < k ==> fresh(es[j]) && es[j].Complete() && es[j].id == Some(recs[j].id)
        invariant forall j :: 0 <= j < k ==> es[j].Snapshot(recs[j].id) == recs[j]
        invariant forall i, j :: 0 <= i < j < k ==> es[i] != es[j]
      {
        var e := new Message.Loaded(recs[k]);
        es := es + [e];
        k := k + 1;
      }
    }

    /**
     * `saveAll` over entities that are all stored: each is merged over its row, in list order.
     */
    method SaveAll(es: seq<Message>) returns (saved: seq<MessageRecord>)
      requires Valid()
      requires forall j :: 0 <= j < |es| ==> es[j].Complete() && es[j].id.Some?
      requires forall j :: 0 <= j < |es| ==> Lookup(rows, MessageId, es[j].id.value).Some?
      modifies this
      ensures Valid() && nextId == old(nextId)
      ensures saved == old(Snapshots(es))
      ensures rows == ReplaceAll(old(rows), MessageId, saved)
    {
      saved := Snapshots(es);
      var k := 0;
      while k < |es|
        invariant k <= |es|
        invariant Valid() && nextId == old(nextId)
        invariant rows == ReplaceAll(old(rows), MessageId, saved[..k])
        invariant StoresAll(rows, saved)
      {
        SaveAllStep(old(rows), rows, saved, k);
        var r := Merge(es[k]);
        k := k + 1;
      }
      assert saved[..|es|] == saved;
    }
  }

  /** One more merge in `saveAll`: the batch grows by one row, and every row of the batch is still stored. */
  lemma SaveAllStep(rows0: seq<MessageRecord>, rows: seq<MessageRecord>, saved: seq<MessageRecord>, k: nat)
    requires k < |saved|
    requires rows == ReplaceAll(rows0, MessageId, saved[..k]) && StoresAll(rows, saved)
    ensures Replace(rows, MessageId, saved[k]) == ReplaceAll(rows0, MessageId, saved[..k + 1])
    ensures StoresAll(Replace(rows, MessageId, saved[k]), saved)
  {
    ReplaceStoresAll(rows, saved[k], saved);
    ReplaceAllPrefix(rows0, MessageId, saved, k);
  }

  /** Every id among `recs` names a stored row. */
  predicate StoresAll(rows: seq<MessageRecord>, recs: seq<MessageRecord>) {
    forall j :: 0 <= j < |recs| ==> Lookup(rows, MessageId, recs[j].id).Some?
  }

  lemma ReplaceStoresAll(rows: seq<MessageRecord>, rec: MessageRecord, recs: seq<MessageRecord>)
    requires StoresAll(rows, recs)
    ensures StoresAll(Replace(rows, MessageId, rec), recs)
  {
    forall j | 0 <= j < |recs| ensures Lookup(Replace(rows, MessageId, rec), MessageId, recs[j].id).Some? {
      LookupReplace(rows, MessageId, rec, recs[j].id);
    }
  }

  /** The rows a list of complete, identified entities are stored as. */
  function Snapshots(es: seq<Message>): (r: seq<MessageRecord>)
    reads es
    requires forall j :: 0 <= j < |es| ==> es[j].Complete() && es[j].id.Some?
    ensures |r| == |es|
    ensures forall j :: 0 <= j < |es| ==> r[j].id == es[j].id.value
  {
    seq(|es|, j reads es requires 0 <= j < |es| && es[j].Complete() && es[j].id.Some? => es[j].Snapshot(es[j].id.value))
  }
}
