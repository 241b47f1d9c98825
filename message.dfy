/**
 * The `Message` entity: a mutable object whose nullable fields are filled by a constructor
 * and changed by setters, and the row of the `messages` table that saving it produces.
 */
module Messages {
  import opened Common

  /** A stored message; every column except the id is declared `nullable = false`. */
  datatype MessageRecord = MessageRecord(
    id: nat,
    senderUsername: string,
    receiverUsername: string,
    itemId: int,
    content: string,
    sentAt: Timestamp,
    isRead: bool)

  /** The primary key of a stored message. */
  function MessageId(m: MessageRecord): nat { m.id }

  class Message {
    var id: Option<nat>                  // unset until the store assigns one
    var senderUsername: Option<string>
    var receiverUsername: Option<string>
    var itemId: Option<int>
    var content: Option<string>
    var sentAt: Timestamp                // field initialiser: the clock at construction
    var isRead: bool                     // field initialiser: false

    /** The no-argument constructor: only the field initialisers run. */
    constructor Empty(now: Timestamp)
      ensures id.None? && senderUsername.None? && receiverUsername.None?
      ensures itemId.None? && content.None?
      ensures sentAt == now && !isRead
    {
      id, senderUsername, receiverUsername, itemId, content := None, None, None, None, None;
      sentAt, isRead := now, false;
    }

    /** The four-argument constructor: stores its arguments as given, stamps `sentAt`, starts unread. */
    constructor (senderUsername: Option<string>, receiverUsername: Option<string>,
                 itemId: Option<int>, content: Option<string>, now: Timestamp)
      ensures this.senderUsername == senderUsername && this.receiverUsername == receiverUsername
      ensures this.itemId == itemId && this.content == content
      ensures id.None? && sentAt == now && !isRead
    {
      id := None;
      this.senderUsername, this.receiverUsername := senderUsername, receiverUsername;
      this.itemId, this.content := itemId, content;
      sentAt, isRead := now, false;
    }

    /** An entity materialised by the store from a stored row. */
    constructor Loaded(r: MessageRecord)
      ensures Complete() && id == Some(r.id) && Snapshot(r.id) == r
    {
      id := Some(r.id);
      senderUsername, receiverUsername := Some(r.senderUsername), Some(r.receiverUsername);
      itemId, content := Some(r.itemId), Some(r.content);
      sentAt, isRead := r.sentAt, r.isRead;
    }

    /** Every `nullable = false` column holds a value. */
    predicate Complete()
      reads this
    {
      senderUsername.Some? && receiverUsername.Some? && itemId.Some? && content.Some?
    }

    /** The row this entity is stored as under id `key`. */
    function Snapshot(key: nat): (r: MessageRecord)
      reads this
      requires Complete()
      ensures r.id == key && r.isRead == isRead && r.sentAt == sentAt
      ensures Some(r.senderUsername) == senderUsername && Some(r.receiverUsername) == receiverUsername
      ensures Some(r.itemId) == itemId && Some(r.content) == content
    {
      MessageRecord(key, senderUsername.value, receiverUsername.value, itemId.value, content.value, sentAt, isRead)
    }

    /** `setRead`: changes `isRead` and nothing else. */
    method SetRead(read: bool)
      modifies this
      ensures isRead == read
      ensures id == old(id) && senderUsername == old(senderUsername) && receiverUsername == old(receiverUsername)
      ensures itemId == old(itemId) && content == old(content) && sentAt == old(sentAt)
    {
      isRead := read;
    }
  }
}
