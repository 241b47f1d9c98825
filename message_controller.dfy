/**
 * The `/api/messages` endpoints. Every handler first turns away a request without a principal;
 * `sendMessage` reads its fields out of a JSON object and always takes the sender from the principal.
 */
module MessageController {
  import opened Common
  import opened Seqs
  import opened Table
  import opened Messages
  import opened MessageRepository
  import opened MessageService
  import opened JavaLong

  /**
   * A JSON value as the request body decoder hands it over: a whole number becomes an integer
   * object, any other number a `Double` (whose `toString` always has a `.` or an exponent), and
   * arrays and objects become collections; their contents play no part here.
   */
  datatype JsonValue =
    | JNull
    | JBool(b: bool)
    | JInt(n: int)
    | JFloat
    | JString(s: string)
    | JArray
    | JObject

  /** The request body: a JSON object. */
  type Payload = map<string, JsonValue>

  /** `payload.get(key)`: a missing key reads as `null`. */
  function Get(payload: Payload, key: string): JsonValue {
    if key in payload then payload[key] else JNull
  }

  /** `(String) v`: `Some(None)` for null, `None` when the cast throws `ClassCastException`. */
  function CastToString(v: JsonValue): Option<Option<string>> {
    match v
    case JNull => Some(None)
    case JString(s) => Some(Some(s))
    case _ => None
  }

  /** `Long.valueOf(v.toString())`; `None` when it throws (null pointer or number format). */
  function LongOf(v: JsonValue): Option<int> {
    match v
    case JNull => None
    case JBool(b) => ParseLong(if b then "true" else "false")
    case JInt(n) => ParseLong(DecimalString(n))
    case JFloat => None
    case JString(s) => ParseLong(s)
    case JArray => None
    case JObject => None
  }

  /** The fields of a message the body asks to send. */
  datatype Draft = Draft(receiverUsername: string, itemId: int, content: string)

  /**
   * What a `sendMessage` body yields once every step that can throw has been survived: the casts,
   * the item-id parse, and the `nullable = false` check on receiver and content at save time.
   */
  function ReadDraft(payload: Payload): Option<Draft> {
    match (CastToString(Get(payload, "receiverUsername")), LongOf(Get(payload, "itemId")), CastToString(Get(payload, "content")))
    case (Some(Some(receiver)), Some(itemId), Some(Some(content))) => Some(Draft(receiver, itemId, content))
    case _ => None
  }

  /** A JSON whole number is accepted as item id exactly when it fits in a `long`, and read exactly. */
  lemma LongOfInt(n: int)
    ensures LongOf(JInt(n)) == if InLongRange(n) then Some(n) else None
  {
    ParseDecimalString(n);
  }

  /** A body is accepted exactly when receiver and content are strings and the item id reads as a `long`. */
  lemma ReadDraftAccepts(payload: Payload)
    ensures ReadDraft(payload).Some? <==>
      && Get(payload, "receiverUsername").JString?
      && Get(payload, "content").JString?
      && LongOf(Get(payload, "itemId")).Some?
    ensures ReadDraft(payload).Some? ==>
      && ReadDraft(payload).value.receiverUsername == Get(payload, "receiverUsername").s
      && ReadDraft(payload).value.content == Get(payload, "content").s
      && ReadDraft(payload).value.itemId == LongOf(Get(payload, "itemId")).value
  {
  }

  /** A `senderUsername` (or any other extra key) in the body changes nothing about what is sent. */
  lemma SenderNotFromPayload(payload: Payload, key: string, v: JsonValue)
    requires key !in {"receiverUsername", "itemId", "content"}
    ensures ReadDraft(payload[key := v]) == ReadDraft(payload)
  {
    assert Get(payload[key := v], "receiverUsername") == Get(payload, "receiverUsername");
    assert Get(payload[key := v], "itemId") == Get(payload, "itemId");
    assert Get(payload[key := v], "content") == Get(payload, "content");
  }

  datatype Body =
    | ErrorBody(error: string)
    | MessageBody(message: MessageRecord)
    | MessagesBody(messages: seq<MessageRecord>)
    | CountBody(count: int)
    | SuccessBody(success: bool)

  const INVALID_MESSAGE: string := "Invalid message data"

  function Unauthenticated(): Response<Body> {
    Response(UNAUTHORIZED, ErrorBody(UNAUTHENTICATED))
  }

  class MessageController {
    const service: MessageService

    constructor (service: MessageService)
      ensures this.service == service
    {
      this.service := service;
    }

    /**
     * `POST /api/messages`: 401 without a principal, 400 when the body is unusable, otherwise 201
     * with the stored message, whose sender is the principal's name whatever the body says.
     */
    method SendMessage(payload: Payload, principal: Principal, now: Timestamp) returns (resp: Response<Body>)
      requires service.repo.Valid()
      modifies service.repo
      ensures service.repo.Valid()
      ensures principal.None? ==> resp == Unauthenticated() && unchanged(service.repo)
      ensures principal.Some? && ReadDraft(payload).None? ==>
        && resp == Response(BAD_REQUEST, ErrorBody(INVALID_MESSAGE))
        && service.repo.rows == old(service.repo.rows) && service.repo.nextId == old(service.repo.nextId)
      ensures principal.Some? && ReadDraft(payload).Some? ==>
        var d := ReadDraft(payload).value;
        var sent := MessageRecord(old(service.repo.nextId), principal.value, d.receiverUsername, d.itemId, d.content, now, false);
        && resp == Response(CREATED, MessageBody(sent))
        && service.repo.rows == old(service.repo.rows) + [sent]
        && service.repo.nextId == old(service.repo.nextId) + 1
    {
      if principal.None? {
        return Unauthenticated();
      }
      var receiver := CastToString(Get(payload, "receiverUsername"));
      var itemId := LongOf(Get(payload, "itemId"));
      var content := CastToString(Get(payload, "content"));
      if receiver.None? || itemId.None? || content.None? {
        return Response(BAD_REQUEST, ErrorBody(INVALID_MESSAGE));
      }
      var message := new Message(Some(principal.value), receiver.value, Some(itemId.value), content.value, now);
      var sent := service.SendMessage(message);
      if sent.Err? {
        return Response(BAD_REQUEST, ErrorBody(INVALID_MESSAGE));
      }
      return Response(CREATED, MessageBody(sent.value));
    }

    /** `GET /api/messages/received`. */
    function GetReceivedMessages(principal: Principal): (r: Response<Body>)
      reads service.repo
      ensures principal.None? ==> r == Unauthenticated()
      ensures principal.Some? ==>
        && r.status == OK && r.body.MessagesBody?
        && (forall m :: m in r.body.messages <==> m in service.repo.rows && m.receiverUsername == principal.value)
        && (forall m :: multiset(r.body.messages)[m] == if m.receiverUsername == principal.value then multiset(service.repo.rows)[m] else 0)
        && SortedBySentAt(r.body.messages, Desc)
    {
      if principal.None? then Unauthenticated()
      else Response(OK, MessagesBody(service.GetReceivedMessages(principal.value)))
    }

    /** `GET /api/messages/sent`. */
    function GetSentMessages(principal: Principal): (r: Response<Body>)
      reads service.repo
      ensures principal.None? ==> r == Unauthenticated()
      ensures principal.Some? ==>
        && r.status == OK && r.body.MessagesBody?
        && (forall m :: m in r.body.messages <==> m in service.repo.rows && m.senderUsername == principal.value)
        && (forall m :: multiset(r.body.messages)[m] == if m.senderUsername == principal.value then multiset(service.repo.rows)[m] else 0)
        && SortedBySentAt(r.body.messages, Desc)
    {
      if principal.None? then Unauthenticated()
      else Response(OK, MessagesBody(service.GetSentMessages(principal.value)))
    }

    /** `GET /api/messages/item/{itemId}`: the caller's side of the conversation on one item. */
    function GetConversationForItem(itemId: int, principal: Principal): (r: Response<Body>)
      reads service.repo
      ensures principal.None? ==> r == Unauthenticated()
      ensures principal.Some? ==>
        && r.status == OK && r.body.MessagesBody?
        && (forall m :: m in r.body.messages <==> m in service.repo.rows && m.itemId == itemId &&
                                                  (m.senderUsername == principal.value || m.receiverUsername == principal.value))
        && (forall m :: multiset(r.body.messages)[m] ==
              if m.itemId == itemId && (m.senderUsername == principal.value || m.receiverUsername == principal.value)
              then multiset(service.repo.rows)[m] else 0)
        && SortedBySentAt(r.body.messages, Asc)
    {
      if principal.None? then Unauthenticated()
      else Response(OK, MessagesBody(service.GetConversationForItem(itemId, principal.value)))
    }

    /** `GET /api/messages/unread`. */
    function GetUnreadMessages(principal: Principal): (r: Response<Body>)
      reads service.repo
      ensures principal.None? ==> r == Unauthenticated()
      ensures principal.Some? ==>
        && r.status == OK && r.body.MessagesBody?
        && (forall m :: m in r.body.messages <==> m in service.repo.rows && UnreadFor(m, principal.value))
        && (forall m :: multiset(r.body.messages)[m] == if UnreadFor(m, principal.value) then multiset(service.repo.rows)[m] else 0)
    {
      if principal.None? then Unauthenticated()
      else Response(OK, MessagesBody(service.GetUnreadMessages(principal.value)))
    }

    /** `GET /api/messages/unread/count`: the number of distinct unread messages addressed to the caller. */
    function GetUnreadCount(principal: Principal): (r: Response<Body>)
      reads service.repo
      requires service.repo.Valid()
      ensures principal.None? ==> r == Unauthenticated()
      ensures principal.Some? ==>
        r == Response(OK, CountBody(|set m | m in service.repo.rows && UnreadFor(m, principal.value)|))
    {
      if principal.None? then Unauthenticated()
      else
        UnreadCountIsSetSize(service.repo.rows, service.repo.nextId, principal.value);
        Response(OK, CountBody(|service.GetUnreadMessages(principal.value)|))
    }

    /**
     * `PUT /api/messages/{id}/read`: any authenticated caller may mark any message read (the
     * receiver is not checked), and an unknown id still answers success.
     */
    method MarkAsRead(id: int, principal: Principal) returns (resp: Response<Body>)
      requires service.repo.Valid()
      modifies service.repo
      ensures service.repo.Valid()
      ensures principal.None? ==> resp == Unauthenticated() && unchanged(service.repo)
      ensures principal.Some? ==>
        resp == Response(OK, SuccessBody(true)) && service.repo.rows == ReadOne(old(service.repo.rows), id)
    {
      if principal.None? {
        return Unauthenticated();
      }
      service.MarkAsRead(id);
      return Response(OK, SuccessBody(true));
    }

    /** `PUT /api/messages/read-all`: marks read everything addressed to the caller. */
    method MarkAllAsRead(principal: Principal) returns (resp: Response<Body>)
      requires service.repo.Valid()
      modifies service.repo
      ensures service.repo.Valid()
      ensures principal.None? ==> resp == Unauthenticated() && unchanged(service.repo)
      ensures principal.Some? ==>
        resp == Response(OK, SuccessBody(true)) && service.repo.rows == ReadAllFor(old(service.repo.rows), principal.value)
    {
      if principal.None? {
        return Unauthenticated();
      }
      service.MarkAllAsRead(principal.value);
      return Response(OK, SuccessBody(true));
    }
  }
}
