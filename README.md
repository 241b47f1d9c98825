# Lost-and-found backend: message store and item store

This project models the two record stores of a lost-and-found web service. Users post lost
or found items, message each other about an item, and mark items as claimed.

- **Message side.**
  - The `Message` entity.
  - The five derived queries of the message repository. Each one filters the table, then sorts by
    `sentAt`.
  - The message service: send, the four per-user views, mark one message read, mark all read.
  - The `/api/messages` handlers: authentication gating, reading the JSON body of a send, the
    unread count, and the mark-read replies.
- **Item side.**
  - The `Item` entity with its claim fields.
  - The two derived item queries.
  - The item service: create, find, the seven-field update, delete.
  - The `/api/items` handlers: owner stamping on create, 404 on a failed update, 204 on delete,
    and the owner checks on claim and unclaim.

How the model is built:

- **Stores.** Each store is a class that holds its rows as a sequence in id order, plus an identity
  counter. `Table.WellFormed` is the invariant: ids strictly ascend and all lie below the counter.
- **Entities.** Entities are classes whose nullable fields are `Option`s. Saving an entity copies
  its fields into a row datatype. Loading a row creates a fresh object.
- **Clock.** The clock is a `now` parameter.
- **Caller.** The caller is a `Principal`, an optional user name.
- **Responses.** A response is a status code and a body.

The message and item handlers persist changes by mutating an entity and saving it, and the model
does the same:

- `Messages.Message.SetRead` and the `Items.Item` setters change the object.
- `MessageStore.Save`, `SaveAll` and `ItemStore.Save` write the object's state over its row.

Each such method is proved against a function over the old table. Examples:
`MessageService.ReadOne`, `MessageService.ReadAllFor`, `ItemService.Updated`/`AfterUpdate`,
`ItemController.ClaimedRow`. The lemmas state the promised properties of those functions.

Some behaviour of the code that is easy to assume otherwise:

- Malformed send input is not rejected before the store. A missing `receiverUsername` or
  `content` passes the casts, the message is built and handed to `save`, and the not-null columns
  refuse it there. The client still gets 400 and nothing is stored
  (`MessageController.MessageController.SendMessage`).
- Stored messages are not immutable. `save` writes back the mark-read updates. Only `isRead`
  changes, and only from false to true (`MessageService.ReadOneEffect`,
  `MessageService.ReadAllMarksExactlyUnread`).
- The code lets any authenticated caller do the following:
  - mark any message read (the receiver is not checked);
  - edit or delete any item (the owner is not checked).

  Only claim and unclaim check the owner.

## Model

| member | source | states |
|---|---|---|
| Messages.Message.Empty | Code/src/main/java/com/example/lostandfound/model/Message.java:9-32 | a message built without arguments has no id and no field values, is unread, and has `sentAt` set to the construction time |
| Messages.Message.constructor | Code/src/main/java/com/example/lostandfound/model/Message.java:34-41 | the four-argument constructor stores sender, receiver, item id and content exactly as given, has no id, sets `sentAt` to now, and starts unread |
| Messages.Message.Snapshot | Code/src/main/java/com/example/lostandfound/model/Message.java:13-30 | the stored row carries every not-null column of the entity unchanged, under the given key |
| Messages.Message.SetRead | Code/src/main/java/com/example/lostandfound/model/Message.java:63 | `setRead` changes `isRead` and no other field |
| MessageRepository.MessageStore.Save | Code/src/main/java/com/example/lostandfound/model/Message.java:9-30 | persisting an entity without an id appends one row under the next counter value and writes that id back; a null in a not-null column fails and stores nothing; an entity with an id overwrites the row with that id, or fails if there is none |
| MessageRepository.MessageStore.Merge | Code/src/main/java/com/example/lostandfound/service/MessageService.java:43 | saving an entity that carries an id overwrites the row with that id with the entity's fields; a null not-null column, or an id that names no row, fails and stores nothing; the id counter never moves |
| MessageRepository.MessageStore.FindById | Code/src/main/java/com/example/lostandfound/service/MessageService.java:40 | a fresh entity exactly when a row has the id, whose fields are that row's, so saving it unchanged would store the same row |
| MessageRepository.MessageStore.Load | Code/src/main/java/com/example/lostandfound/service/MessageService.java:48 | the query result comes back as one fresh entity per row, pairwise distinct objects, each holding its row's fields |
| MessageRepository.MessageStore.SaveAll | Code/src/main/java/com/example/lostandfound/service/MessageService.java:50 | `saveAll` over stored entities returns their rows and leaves the table with each of those rows merged over the row with its id, in list order; the id counter never moves |
| MessageRepository.FindByReceiverUsernameOrderBySentAtDesc | Code/src/main/java/com/example/lostandfound/repository/MessageRepository.java:11 | the result is a permutation of the stored messages addressed to the user (a multiset equation, so nothing is added or lost), sorted by non-increasing `sentAt` |
| MessageRepository.FindBySenderUsernameOrderBySentAtDesc | Code/src/main/java/com/example/lostandfound/repository/MessageRepository.java:12 | a permutation of the stored messages sent by the user, sorted by non-increasing `sentAt` |
| MessageRepository.FindByItemIdOrderBySentAtAsc | Code/src/main/java/com/example/lostandfound/repository/MessageRepository.java:13 | a permutation of every stored message on the item, whoever sent or received it, sorted by non-decreasing `sentAt` |
| MessageRepository.FindByReceiverUsernameAndIsReadFalse | Code/src/main/java/com/example/lostandfound/repository/MessageRepository.java:14 | a permutation of the stored unread messages addressed to the user; no order is promised |
| MessageRepository.FindByItemIdAndSenderUsernameOrItemIdAndReceiverUsernameOrderBySentAtAsc | Code/src/main/java/com/example/lostandfound/repository/MessageRepository.java:15-16 | a permutation of the messages with (item = i1 and sender = s) or (item = i2 and receiver = r), with `And` binding tighter than `Or`, sorted by non-decreasing `sentAt` |
| MessageRepository.SortBySentAt | Code/src/main/java/com/example/lostandfound/repository/MessageRepository.java:11-16 | the `ORDER BY sentAt` step returns a sorted permutation of its input |
| MessageRepository.ReceivedDistinct | Code/src/main/java/com/example/lostandfound/repository/MessageRepository.java:11 | on a table with distinct ids, the inbox query returns no message twice |
| MessageRepository.SentDistinct | Code/src/main/java/com/example/lostandfound/repository/MessageRepository.java:12 | on a table with distinct ids, the outbox query returns no message twice |
| MessageRepository.OnItemDistinct | Code/src/main/java/com/example/lostandfound/repository/MessageRepository.java:13 | on a table with distinct ids, the per-item query returns no message twice |
| MessageRepository.UnreadDistinct | Code/src/main/java/com/example/lostandfound/repository/MessageRepository.java:14 | on a table with distinct ids, the unread query returns no message twice |
| MessageRepository.ConversationDistinct | Code/src/main/java/com/example/lostandfound/repository/MessageRepository.java:15-16 | on a table with distinct ids, the conversation query returns no message twice, even when a message matches both sides of the `Or` |
| MessageService.MessageService.SendMessage | Code/src/main/java/com/example/lostandfound/service/MessageService.java:18-20 | sending a complete new message appends exactly one row, returns it, advances the id counter by one and leaves every existing row in place; its id is used by no stored row; an incomplete message stores nothing and keeps the counter; a complete message that carries a stored id overwrites that row, and one whose id names no row fails and stores nothing; a message with an id never moves the counter |
| MessageService.MessageService.GetReceivedMessages | Code/src/main/java/com/example/lostandfound/service/MessageService.java:22-24 | exactly the messages addressed to the user, each as often as stored (a multiset equation), newest first |
| MessageService.MessageService.GetSentMessages | Code/src/main/java/com/example/lostandfound/service/MessageService.java:26-28 | exactly the messages sent by the user, each as often as stored, newest first |
| MessageService.MessageService.GetConversationForItem | Code/src/main/java/com/example/lostandfound/service/MessageService.java:30-33 | the messages on the item that the user sent or received (a union), oldest first, each stored message as often as stored |
| MessageService.MessageService.GetUnreadMessages | Code/src/main/java/com/example/lostandfound/service/MessageService.java:35-37 | exactly the messages addressed to the user that are not read, each as often as stored |
| MessageService.MessageService.MarkAsRead | Code/src/main/java/com/example/lostandfound/service/MessageService.java:39-45 | loading, setting the flag and saving leaves the table `ReadOne(old table, id)`, with the counter unchanged |
| MessageService.ReadOneEffect | Code/src/main/java/com/example/lostandfound/service/MessageService.java:39-45 | after `markAsRead(id)`: a stored id finds its old row with `isRead` set and no other field changed; an unknown id changes nothing; every other id finds what it found before |
| MessageService.SetEachRead | Code/src/main/java/com/example/lostandfound/service/MessageService.java:49 | the `forEach` sets `isRead` on every loaded message and changes no other field |
| MessageService.MessageService.MarkAllAsRead | Code/src/main/java/com/example/lostandfound/service/MessageService.java:47-51 | loading the unread list, setting each flag and saving them all leaves the table `ReadAllFor(old table, user)` |
| MessageService.SaveUnreadMarked | Code/src/main/java/com/example/lostandfound/service/MessageService.java:48-50 | writing back the user's unread list with the flags set equals `ReadAllFor`; every listed message is stored, so `saveAll` merges over existing rows |
| MessageService.ReadAllMarksExactlyUnread | Code/src/main/java/com/example/lostandfound/service/MessageService.java:47-51 | row by row, `markAllAsRead(u)` marks read exactly the rows on u's unread list and leaves every other row as it was |
| MessageService.ReadAllClearsUnread | Code/src/main/java/com/example/lostandfound/service/MessageService.java:47-51 | after `markAllAsRead(u)` the unread list of u is empty |
| MessageService.ReadAllSparesOthers | Code/src/main/java/com/example/lostandfound/service/MessageService.java:47-51 | for every other user, `markAllAsRead(u)` leaves both the unread list and the inbox as they were |
| MessageService.ReadAllIdempotent | Code/src/main/java/com/example/lostandfound/service/MessageService.java:47-51 | a second `markAllAsRead(u)` changes nothing |
| MessageService.UnreadCountIsSetSize | Code/src/main/java/com/example/lostandfound/controller/MessageController.java:88 | the size of the unread list is the number of distinct unread messages addressed to the user |
| JavaLong.ParseLong | Code/src/main/java/com/example/lostandfound/controller/MessageController.java:30 | `Long.valueOf` accepts exactly the text that is an optional sign followed by at least one digit whose value lies within the 64-bit range (so `+7`, `007` and `-0` are accepted); the value read is the digits' decimal value, negated after a minus sign |
| JavaLong.ParseDecimalString | Code/src/main/java/com/example/lostandfound/controller/MessageController.java:30 | printing an integer and parsing it back gives the integer exactly when it fits in a `long`, and fails otherwise |
| MessageController.LongOfInt | Code/src/main/java/com/example/lostandfound/controller/MessageController.java:30 | a JSON whole number is read as the item id exactly when it fits in a `long`, and it is read exactly |
| MessageController.ReadDraftAccepts | Code/src/main/java/com/example/lostandfound/controller/MessageController.java:29-31 | a send body is usable if and only if receiver and content are JSON strings and the item id parses as a `long`; the draft then carries those three values |
| MessageController.SenderNotFromPayload | Code/src/main/java/com/example/lostandfound/controller/MessageController.java:33-38 | no key other than receiver, item id and content, `senderUsername` included, changes what is sent |
| MessageController.MessageController.SendMessage | Code/src/main/java/com/example/lostandfound/controller/MessageController.java:22-45 | 401 with nothing changed when there is no principal; 400 "Invalid message data" with nothing stored and the id counter kept when the body is unusable; otherwise 201 with the one appended row, whose id is the counter's old value, whose sender is the principal, which is unread and which is stamped now, and the counter advances by one |
| MessageController.MessageController.GetReceivedMessages | Code/src/main/java/com/example/lostandfound/controller/MessageController.java:47-54 | 401 without a principal; otherwise 200 with exactly the caller's received messages, each as often as stored, newest first |
| MessageController.MessageController.GetSentMessages | Code/src/main/java/com/example/lostandfound/controller/MessageController.java:56-63 | 401 without a principal; otherwise 200 with exactly the caller's sent messages, each as often as stored, newest first |
| MessageController.MessageController.GetConversationForItem | Code/src/main/java/com/example/lostandfound/controller/MessageController.java:65-72 | 401 without a principal; otherwise 200 with the item's messages that the caller sent or received, each as often as stored, oldest first |
| MessageController.MessageController.GetUnreadMessages | Code/src/main/java/com/example/lostandfound/controller/MessageController.java:74-81 | 401 without a principal; otherwise 200 with exactly the caller's unread messages, each as often as stored |
| MessageController.MessageController.GetUnreadCount | Code/src/main/java/com/example/lostandfound/controller/MessageController.java:83-90 | 401 without a principal; otherwise 200 with the number of distinct unread messages addressed to the caller |
| MessageController.MessageController.MarkAsRead | Code/src/main/java/com/example/lostandfound/controller/MessageController.java:92-99 | 401 with nothing changed when there is no principal; otherwise `success: true` for any id, known or not, and the table becomes `ReadOne`, whoever the caller is |
| MessageController.MessageController.MarkAllAsRead | Code/src/main/java/com/example/lostandfound/controller/MessageController.java:101-108 | 401 with nothing changed when there is no principal; otherwise `success: true` and the table becomes `ReadAllFor` for the caller |
| Items.Item.Empty | Code/src/main/java/com/example/lostandfound/model/Item.java:36-45 | an item built without arguments has no fields set, is not claimed, and has `createdAt` set to the construction time |
| Items.Item.constructor | Code/src/main/java/com/example/lostandfound/model/Item.java:47-57 | the eight-argument constructor stores exactly the eight given fields, sets `createdAt` to now, has no id, and is not claimed, with no claimant and no claim time |
| Items.Item.SetClaimed | Code/src/main/java/com/example/lostandfound/model/Item.java:90 | `setClaimed` changes `isClaimed` and no other field |
| Items.Item.SetClaimedBy | Code/src/main/java/com/example/lostandfound/model/Item.java:93 | `setClaimedBy` changes `claimedBy` and no other field |
| Items.Item.SetClaimedAt | Code/src/main/java/com/example/lostandfound/model/Item.java:96 | `setClaimedAt` changes `claimedAt` and no other field |
| Items.Item.SetCreatedBy | Code/src/main/java/com/example/lostandfound/model/Item.java:84 | `setCreatedBy` changes `createdBy` and no other field |
| Items.Item.SetTitle | Code/src/main/java/com/example/lostandfound/model/Item.java:63 | `setTitle` changes `title` and no other field (the six other editable setters, lines 66-81, are modelled the same way) |
| Items.ToRecord | Code/src/main/java/com/example/lostandfound/model/Item.java:11-43 | a row can be stored only when title and status are set, and it carries every field of the object unchanged |
| ItemRepository.ItemStore.Save | Code/src/main/java/com/example/lostandfound/model/Item.java:15-23 | a null title or status fails and stores nothing; a new item is appended under the next id, which is written back; an item with an id overwrites its row, or fails if the id names no row |
| ItemRepository.ItemStore.FindById | src/main/java/com/example/lostandfound/service/ItemService.java:22-24 | a fresh object exactly when a row has the id, whose state is that row's fields with the id set |
| ItemRepository.ItemStore.DeleteById | src/main/java/com/example/lostandfound/service/ItemService.java:53-55 | the table loses the row with that id and keeps every other row in order; an unknown id is ignored; the id counter never moves, so ids are not reissued |
| ItemRepository.FindByStatus | src/main/java/com/example/lostandfound/repository/ItemRepository.java:9 | a permutation of the stored items with that status |
| ItemRepository.FindByCreatedBy | src/main/java/com/example/lostandfound/repository/ItemRepository.java:10 | a permutation of the stored items whose creator is the user |
| ItemRepository.StatusesPartition | src/main/java/com/example/lostandfound/repository/ItemRepository.java:9 | the lost query and the found query together list every stored item exactly once |
| ItemService.ItemService.CreateItem | src/main/java/com/example/lostandfound/service/ItemService.java:18-20 | a storable new item is appended as exactly one row and returned; an item without a title or status stores nothing; an item that carries an id overwrites its row |
| ItemService.ItemService.GetItemById | src/main/java/com/example/lostandfound/service/ItemService.java:22-24 | a freshly loaded object holding the stored row, or nothing when no row has the id |
| ItemService.ItemService.GetItemsByStatus | src/main/java/com/example/lostandfound/service/ItemService.java:30-32 | exactly the stored items with that status, each as often as stored (a multiset equation) |
| ItemService.ItemService.GetItemsByCreatedBy | src/main/java/com/example/lostandfound/service/ItemService.java:34-36 | exactly the stored items whose `createdBy` is the user, each as often as stored |
| ItemService.Updated | src/main/java/com/example/lostandfound/service/ItemService.java:38-51 | "not found" if and only if the id is absent; a save failure if and only if the id is present and the request lacks a title or status; success if and only if the id is present and the request has both; on success the row takes exactly title, description, status, location, date, contact info and image from the request, and keeps id, creator, creation time and the three claim fields |
| ItemService.ItemService.UpdateItem | src/main/java/com/example/lostandfound/service/ItemService.java:38-51 | loading, copying the seven fields and saving returns `Updated(old table, id, request)` and leaves `AfterUpdate`; a missing id stores nothing |
| ItemService.UpdateTouchesOnlyItsRow | src/main/java/com/example/lostandfound/service/ItemService.java:38-51 | after an update, the id finds the updated row and every other id finds what it found before |
| ItemService.UpdateIdempotent | src/main/java/com/example/lostandfound/service/ItemService.java:38-51 | sending the same update twice gives the same result and the same table as sending it once |
| ItemService.ItemService.DeleteItem | src/main/java/com/example/lostandfound/service/ItemService.java:53-55 | the table loses the rows with that id and nothing else; an unknown id is ignored |
| Table.LookupRemove | src/main/java/com/example/lostandfound/service/ItemService.java:53-55 | after deleting an id, that id finds nothing and every other id finds what it found before |
| Table.LookupAppend | src/main/java/com/example/lostandfound/service/ItemService.java:18-20 | after inserting under the next id, that id finds the new row and every other id finds what it found before |
| ItemController.ItemController.CreateItem | Code/src/main/java/com/example/lostandfound/controller/ItemController.java:41-49 | 401 with nothing changed when there is no principal; otherwise the stored row's creator is the principal whatever the body said; 201 with that row, or a server error with nothing stored when the save throws |
| ItemController.ItemController.GetItemById | Code/src/main/java/com/example/lostandfound/controller/ItemController.java:57-62 | 200 with the stored row, or 404 when the id is absent |
| ItemController.ItemController.GetItemsByStatus | Code/src/main/java/com/example/lostandfound/controller/ItemController.java:64-68 | 200 with exactly the items of that status, each as often as stored |
| ItemController.ItemController.GetItemsByUser | Code/src/main/java/com/example/lostandfound/controller/ItemController.java:70-74 | 200 with exactly the items the user created, each as often as stored |
| ItemController.ItemController.UpdateItem | Code/src/main/java/com/example/lostandfound/controller/ItemController.java:76-87 | 401 with nothing changed when there is no principal; otherwise the table becomes `AfterUpdate`; 200 with the updated row, or 404 for any failure, a missing id included |
| ItemController.ItemController.DeleteItem | Code/src/main/java/com/example/lostandfound/controller/ItemController.java:89-96 | 401 with nothing changed when there is no principal; otherwise 204 whether or not the item existed, and the id is removed |
| ItemController.ItemController.MarkAsClaimed | Code/src/main/java/com/example/lostandfound/controller/ItemController.java:98-119 | the checks run in this order: 401 without a principal; 404 for an absent id, or for an item with no creator; 403 "Only the item owner can mark it as claimed" unless the caller created it. Every refusal leaves the table unchanged. The owner gets 200, and the row is marked claimed at `now` with `claimedBy` untouched |
| ItemController.ItemController.MarkAsUnclaimed | Code/src/main/java/com/example/lostandfound/controller/ItemController.java:121-143 | the same checks in the same order, with 403 "Only the item owner can unmark it"; the owner's request clears `isClaimed`, `claimedBy` and `claimedAt` and changes nothing else |
| ItemController.UnclaimUndoesClaim | Code/src/main/java/com/example/lostandfound/controller/ItemController.java:112-114 | unclaiming right after claiming stores the same table as unclaiming alone; for an item that was never claimed, that is the original table |
| ItemController.ClaimSurvivesUpdate | Code/src/main/java/com/example/lostandfound/controller/ItemController.java:112-114 | a later `updateItem` of a claimed item keeps `isClaimed`, `claimedAt` and `claimedBy` |

## Left out

- The typing (presence) indicator. The frontend calls an endpoint for it, but no server code for it is part of this model.
- The React frontend, the security and web configuration, the authentication controller, the startup data loaders and the static home page.
- Image upload (`uploadImage`): the file storage service is not part of this model.
- `getAllItems`: it returns the table as it is, so there is nothing to state beyond the table itself.
- Transactions, concurrency and persistence-context identity.
  - Every `findById` yields a fresh object.
  - Claim and unclaim persist the object the handler edited, by saving it directly. Within one request the update's reload returns that same object, so its seven-field copy is a copy onto itself. The `ItemService` that the item controller calls is not part of this model; the other one's `updateItem` semantics are used instead.
- Clock values are a `now` parameter. Dates and timestamps are integers.
- JSON decoding of an `Item` request body. The handlers receive the decoded object. A JSON value's array and object contents are not modelled, because they never survive the string cast or the number parse.
- JavaLong.ParseLong: accepts only the ASCII digits `0`-`9`. The Java method also accepts other Unicode decimal digits.
- MessageRepository.MessageStore.Save: merging an entity whose id names no stored row is modelled as a failure. What happens there depends on the persistence provider's version. The controllers never send such an entity for messages.
- MessageRepository.MessageStore.SaveAll: requires every entity to be complete and already stored. `markAllAsRead` only passes it freshly loaded messages.
- ItemController.ItemController.CreateItem: a save that throws is reported as a bare server error. The framework's error body is not modelled.
- The `ItemStatus` enum is not shown in the source. It is modelled as the two values the frontend uses, `LOST` and `FOUND`.
- Path variables that fail to convert are rejected by the framework before any handler runs, and are not modelled. This covers an id that is not a number and a `{status}` that names no `ItemStatus` value.
- Messages.Message.Complete: does not model the column width. `senderUsername` and `receiverUsername` get the default length of 255 characters. With a generated schema, a longer name makes the insert fail and the send answers 400; the model stores any length and answers 201.
- Items.Storable: does not model the column width either. `title`, `location`, `contactInfo`, `imageRef`, `createdBy` and `claimedBy` get the default length of 255 characters. A longer value makes the save fail, which is a 500 on create and a 404 on update; the model stores any length.
- ItemRepository.ItemStore.Save: merging an item whose id names no stored row is modelled as a failure, which `createItem` reports as a server error. The request body can carry any `id`. What the persistence provider does then depends on its version: older versions insert the item under a new id instead.
