/**
 * The message service: sending, the per-user views, and the two mark-read updates.
 * The views pass straight through to the repository's derived queries; the updates load
 * entities, flip their `isRead` flag in place and save them back.
 */
module MessageService {
  import opened Common
  import opened Seqs
  import opened Table
  import opened Messages
  import opened MessageRepository

  /** A stored message with its read flag set. */
  function MarkedRead(m: MessageRecord): MessageRecord {
    m.(isRead := true)
  }

  /** The table after `markAsRead(id)`: the message with that id, if any, is read. */
  function ReadOne(rows: seq<MessageRecord>, id: int): seq<MessageRecord> {
    match Lookup(rows, MessageId, id)
    case None => rows
    case Some(m) => Replace(rows, MessageId, MarkedRead(m))
  }

  /** Whether `m` is an unread message addressed to `username`. */
  predicate UnreadFor(m: MessageRecord, username: string) {
    m.receiverUsername == username && !m.isRead
  }

  /** The table after `markAllAsRead(username)`: every unread message addressed to `username` is read. */
  function ReadAllFor(rows: seq<MessageRecord>, username: string): seq<MessageRecord> {
    Map(rows, (m: MessageRecord) => if UnreadFor(m, username) then MarkedRead(m) else m)
  }

  /**
   * `markAsRead` on a stored id sets that message's `isRead` and changes no other field and no
   * other message; on an unknown id it changes nothing.
   */
  lemma ReadOneEffect(rows: seq<MessageRecord>, nextId: nat, id: int, other: int)
    requires WellFormed(rows, MessageId, nextId)
    ensures WellFormed(ReadOne(rows, id), MessageId, nextId)
    ensures Lookup(ReadOne(rows, id), MessageId, other) ==
            if other == id && Lookup(rows, MessageId, id).Some?
            then Some(Lookup(rows, MessageId, id).value.(isRead := true))
            else Lookup(rows, MessageId, other)
  {
    match Lookup(rows, MessageId, id)
    case None =>
    case Some(m) =>
      LookupReplace(rows, MessageId, MarkedRead(m), other);
  }

  /** After `markAllAsRead(u)` nothing is unread for `u`. */
  lemma ReadAllClearsUnread(rows: seq<MessageRecord>, username: string)
    ensures FindByReceiverUsernameAndIsReadFalse(ReadAllFor(rows, username), username) == []
  {
  }

  /**
   * Saving back the unread list of `username` with each flag set is `ReadAllFor`: the unread rows
   * are read, every other row is as it was.
   */
  lemma SaveUnreadMarked(rows: seq<MessageRecord>, nextId: nat, username: string)
    requires WellFormed(rows, MessageId, nextId)
    ensures forall x :: x in FindByReceiverUsernameAndIsReadFalse(rows, username) ==> Lookup(rows, MessageId, x.id).Some?
    ensures ReplaceAll(rows, MessageId, Map(FindByReceiverUsernameAndIsReadFalse(rows, username), MarkedRead)) ==
            ReadAllFor(rows, username)
  {
    var recs := FindByReceiverUsernameAndIsReadFalse(rows, username);
    forall x | x in recs ensures Lookup(rows, MessageId, x.id).Some? {
      LookupFinds(rows, MessageId, x);
    }
    var after := ReplaceAll(rows, MessageId, Map(recs, MarkedRead));
    forall k | 0 <= k < |rows| ensures after[k] == ReadAllFor(rows, username)[k] {
      ReplaceAllMapped(rows, MessageId, recs, MarkedRead, k);
    }
  }

  /** `markAllAsRead(u)` leaves the unread list and the inbox of every other user as they were. */
  lemma ReadAllSparesOthers(rows: seq<MessageRecord>, username: string, other: string)
    requires other != username
    ensures FindByReceiverUsernameAndIsReadFalse(ReadAllFor(rows, username), other) ==
            FindByReceiverUsernameAndIsReadFalse(rows, other)
    ensures FindByReceiverUsernameOrderBySentAtDesc(ReadAllFor(rows, username), other) ==
            FindByReceiverUsernameOrderBySentAtDesc(rows, other)
  {
    var g := (m: MessageRecord) => if UnreadFor(m, username) then MarkedRead(m) else m;
    FilterMapUnaffected(rows, g, (m: MessageRecord) => m.receiverUsername == other && !m.isRead);
    FilterMapUnaffected(rows, g, (m: MessageRecord) => m.receiverUsername == other);
  }

  /** `markAllAsRead(u)` flips every message that was unread for `u`, and only those. */
  lemma ReadAllMarksExactlyUnread(rows: seq<MessageRecord>, username: string, i: nat)
    requires i < |rows|
    ensures |ReadAllFor(rows, username)| == |rows|
    ensures ReadAllFor(rows, username)[i] ==
            if rows[i] in FindByReceiverUsernameAndIsReadFalse(rows, username) then MarkedRead(rows[i]) else rows[i]
  {
  }

  /** A second `markAllAsRead(u)` changes nothing. */
  lemma ReadAllIdempotent(rows: seq<MessageRecord>, username: string)
    ensures ReadAllFor(ReadAllFor(rows, username), username) == ReadAllFor(rows, username)
  {
    var once := ReadAllFor(rows, username);
    assert forall i :: 0 <= i < |once| ==> !UnreadFor(once[i], username);
  }

  /** The unread list of `username` has one entry per distinct unread message addressed to them. */
  lemma UnreadCountIsSetSize(rows: seq<MessageRecord>, nextId: nat, username: string)
    requires WellFormed(rows, MessageId, nextId)
    ensures |FindByReceiverUsernameAndIsReadFalse(rows, username)| == |set m | m in rows && UnreadFor(m, username)|
  {
    var r := FindByReceiverUsernameAndIsReadFalse(rows, username);
    SelectionDistinct(rows, nextId, r);
    DistinctCard(r);
    assert (set x | x in r) == (set m | m in rows && UnreadFor(m, username));
  }

  /** `forEach(m -> m.setRead(true))` over a list of distinct entities: every flag is set, nothing else moves. */
  method SetEachRead(es: seq<Message>)
    requires forall i, j :: 0 <= i < j < |es| ==> es[i] != es[j]
    modifies set e | e in es
    ensures forall j :: 0 <= j < |es| ==> es[j].isRead
    ensures forall j :: 0 <= j < |es| ==>
      && es[j].id == old(es[j].id) && es[j].senderUsername == old(es[j].senderUsername)
      && es[j].receiverUsername == old(es[j].receiverUsername) && es[j].itemId == old(es[j].itemId)
      && es[j].content == old(es[j].content) && es[j].sentAt == old(es[j].sentAt)
  {
    var i := 0;
    while i < |es|
      invariant i <= |es|
      invariant forall j :: 0 <= j < i ==> es[j].isRead
      invariant forall j :: 0 <= j < |es| ==>
        && es[j].id == old(es[j].id) && es[j].senderUsername == old(es[j].senderUsername)
        && es[j].receiverUsername == old(es[j].receiverUsername) && es[j].itemId == old(es[j].itemId)
        && es[j].content == old(es[j].content) && es[j].sentAt == old(es[j].sentAt)
    {
      es[i].SetRead(true);
      i := i + 1;
    }
  }

  class MessageService {
    const repo: MessageStore

    constructor (repo: MessageStore)
      ensures this.repo == repo
    {
      this.repo := repo;
    }

    /** `sendMessage`: saves the message and returns the stored record. */
    method SendMessage(m: Message) returns (r: Result<MessageRecord, StoreError>)
      requires repo.Valid()
      modifies repo, m
      ensures repo.Valid()
      ensures !old(m.Complete()) ==> r == Err(NullColumn) && repo.rows == old(repo.rows) && repo.nextId == old(repo.nextId)
      ensures old(m.Complete()) && old(m.id).None? ==>
        && r == Ok(old(m.Snapshot(repo.nextId)))
        && repo.rows == old(repo.rows) + [r.value] && repo.nextId == old(repo.nextId) + 1
        && r.value.id !in set x | x in old(repo.rows) :: x.id
      ensures old(m.id).Some? ==> repo.nextId == old(repo.nextId)
      ensures old(m.Complete()) && old(m.id).Some? ==>
        if Lookup(old(repo.rows), MessageId, old(m.id).value).Some?
        then r == Ok(old(m.Snapshot(m.id.value))) && repo.rows == Replace(old(repo.rows), MessageId, r.value)
        else r == Err(StaleEntity) && repo.rows == old(repo.rows)
    {
      r := repo.Save(m);
    }

    /** `getReceivedMessages`: exactly the messages addressed to `username`, newest first. */
    function GetReceivedMessages(username: string): (r: seq<MessageRecord>)
      reads repo
      ensures forall m :: m in r <==> m in repo.rows && m.receiverUsername == username
      ensures forall m :: multiset(r)[m] == if m.receiverUsername == username then multiset(repo.rows)[m] else 0
      ensures SortedBySentAt(r, Desc)
    {
      FindByReceiverUsernameOrderBySentAtDesc(repo.rows, username)
    }

    /** `getSentMessages`: exactly the messages sent by `username`, newest first. */
    function GetSentMessages(username: string): (r: seq<MessageRecord>)
      reads repo
      ensures forall m :: m in r <==> m in repo.rows && m.senderUsername == username
      ensures forall m :: multiset(r)[m] == if m.senderUsername == username then multiset(repo.rows)[m] else 0
      ensures SortedBySentAt(r, Desc)
    {
      FindBySenderUsernameOrderBySentAtDesc(repo.rows, username)
    }

    /**
     * `getConversationForItem`: the messages on the item that `username` sent OR received
     * (a union, not an intersection), oldest first, each stored message exactly once.
     */
    function GetConversationForItem(itemId: int, username: string): (r: seq<MessageRecord>)
      reads repo
      ensures forall m :: m in r <==> m in repo.rows && m.itemId == itemId &&
                                      (m.senderUsername == username || m.receiverUsername == username)
      ensures forall m :: multiset(r)[m] ==
                if m.itemId == itemId && (m.senderUsername == username || m.receiverUsername == username)
                then multiset(repo.rows)[m] else 0
      ensures SortedBySentAt(r, Asc)
    {
      FindByItemIdAndSenderUsernameOrItemIdAndReceiverUsernameOrderBySentAtAsc(repo.rows, itemId, username, itemId, username)
    }

    /** `getUnreadMessages`: exactly the unread messages addressed to `username`. */
    function GetUnreadMessages(username: string): (r: seq<MessageRecord>)
      reads repo
      ensures forall m :: m in r <==> m in repo.rows && UnreadFor(m, username)
      ensures forall m :: multiset(r)[m] == if UnreadFor(m, username) then multiset(repo.rows)[m] else 0
    {
      FindByReceiverUsernameAndIsReadFalse(repo.rows, username)
    }

    /** `markAsRead`: load, set the flag, save; an unknown id is silently ignored. */
    method MarkAsRead(messageId: int)
      requires repo.Valid()
      modifies repo
      ensures repo.Valid() && repo.nextId == old(repo.nextId)
      ensures repo.rows == ReadOne(old(repo.rows), messageId)
    {
      var found := repo.FindById(messageId);
      if found.Some? {
        var m := found.value;
        m.SetRead(true);
        var _ := repo.Save(m);
      }
    }

    /** `markAllAsRead`: load the unread list, set each flag in place, save them all. */
    method MarkAllAsRead(username: string)
      requires repo.Valid()
      modifies repo
      ensures repo.Valid() && repo.nextId == old(repo.nextId)
      ensures repo.rows == ReadAllFor(old(repo.rows), username)
    {
      var recs := GetUnreadMessages(username);
      var unread := repo.Load(recs);
      SetEachRead(unread);
      ghost var marked := Map(recs, MarkedRead);
      assert Snapshots(unread) == marked;
      SaveUnreadMarked(repo.rows, repo.nextId, username);
      assert forall j :: 0 <= j < |unread| ==> recs[j] in recs;
      var saved := repo.SaveAll(unread);
      assert saved == marked;
      assert repo.rows == ReplaceAll(old(repo.rows), MessageId, marked);
    }
  }
}
