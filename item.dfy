/**
 * The `Item` entity: a lost or found object posted by a user, with its claim fields, and the
 * row of the `items` table that saving it produces.
 */
module Items {
  import opened Common

  /** The two states a post can report (stored by name). */
  datatype ItemStatus = Lost | Found

  /** A calendar day (`LocalDate`): the day the item was lost or found. */
  type Date = int

  /**
   * Every field of an `Item` object, each possibly null except the primitive `isClaimed`.
   * An object's state is one of these; a setter moves it to a state that differs in one field.
   */
  datatype ItemState = ItemState(
    id: Option<nat>,
    title: Option<string>,
    description: Option<string>,
    status: Option<ItemStatus>,
    location: Option<string>,
    date: Option<Date>,
    contactInfo: Option<string>,
    imageRef: Option<string>,
    createdBy: Option<string>,
    createdAt: Option<Timestamp>,
    isClaimed: bool,
    claimedBy: Option<string>,
    claimedAt: Option<Timestamp>)

  /** A stored item; `title`, `status` and `isClaimed` are the `nullable = false` columns. */
  datatype ItemRecord = ItemRecord(
    id: nat,
    title: string,
    description: Option<string>,
    status: ItemStatus,
    location: Option<string>,
    date: Option<Date>,
    contactInfo: Option<string>,
    imageRef: Option<string>,
    createdBy: Option<string>,
    createdAt: Option<Timestamp>,
    isClaimed: bool,
    claimedBy: Option<string>,
    claimedAt: Option<Timestamp>)

  /** The primary key of a stored item. */
  function ItemId(r: ItemRecord): nat { r.id }

  /** A state the store accepts: no `nullable = false` column is null. */
  predicate Storable(s: ItemState) {
    s.title.Some? && s.status.Some?
  }

  /** The row an object in state `s` is stored as under id `key`. */
  function ToRecord(s: ItemState, key: nat): (r: ItemRecord)
    requires Storable(s)
    ensures r.id == key && Some(r.title) == s.title && Some(r.status) == s.status
    ensures r.description == s.description && r.location == s.location && r.date == s.date
    ensures r.contactInfo == s.contactInfo && r.imageRef == s.imageRef
    ensures r.createdBy == s.createdBy && r.createdAt == s.createdAt
    ensures r.isClaimed == s.isClaimed && r.claimedBy == s.claimedBy && r.claimedAt == s.claimedAt
  {
    ItemRecord(key, s.title.value, s.description, s.status.value, s.location, s.date, s.contactInfo,
               s.imageRef, s.createdBy, s.createdAt, s.isClaimed, s.claimedBy, s.claimedAt)
  }

  /** The state of an object the store materialises from row `r`. */
  function FromRecord(r: ItemRecord): (s: ItemState)
    ensures Storable(s) && s.id == Some(r.id)
  {
    ItemState(Some(r.id), Some(r.title), r.description, Some(r.status), r.location, r.date, r.contactInfo,
              r.imageRef, r.createdBy, r.createdAt, r.isClaimed, r.claimedBy, r.claimedAt)
  }

  /** Loading a row and storing it back under its own id reproduces the row. */
  lemma LoadStoreRoundTrip(r: ItemRecord)
    ensures ToRecord(FromRecord(r), r.id) == r
  {
  }

  /** Storing a state and loading it back reproduces the state, with the id set. */
  lemma StoreLoadRoundTrip(s: ItemState, key: nat)
    requires Storable(s)
    ensures FromRecord(ToRecord(s, key)) == s.(id := Some(key))
  {
  }

  class Item {
    var id: Option<nat>                 // unset until the store assigns one
    var title: Option<string>
    var description: Option<string>
    var status: Option<ItemStatus>
    var location: Option<string>
    var date: Option<Date>
    var contactInfo: Option<string>
    var imageRef: Option<string>
    var createdBy: Option<string>
    var createdAt: Option<Timestamp>    // field initialiser: the clock at construction
    var isClaimed: bool                 // field initialiser: false
    var claimedBy: Option<string>
    var claimedAt: Option<Timestamp>

    /** Every field of this object. */
    function State(): ItemState
      reads this
    {
      ItemState(id, title, description, status, location, date, contactInfo, imageRef,
                createdBy, createdAt, isClaimed, claimedBy, claimedAt)
    }

    /** The no-argument constructor (also what a request body is decoded into): only the field initialisers run. */
    constructor Empty(now: Timestamp)
      ensures State() == ItemState(None, None, None, None, None, None, None, None, None, Some(now), false, None, None)
    {
      id, title, description, status, location, date := None, None, None, None, None, None;
      contactInfo, imageRef, createdBy := None, None, None;
      createdAt, isClaimed, claimedBy, claimedAt := Some(now), false, None, None;
    }

    /** The eight-argument constructor: the eight given fields, `createdAt` stamped, unclaimed, no id. */
    constructor (title: Option<string>, description: Option<string>, status: Option<ItemStatus>,
                 location: Option<string>, date: Option<Date>, contactInfo: Option<string>,
                 imageRef: Option<string>, createdBy: Option<string>, now: Timestamp)
      ensures State() == ItemState(None, title, description, status, location, date, contactInfo, imageRef,
                                   createdBy, Some(now), false, None, None)
    {
      id := None;
      this.title, this.description, this.status, this.location := title, description, status, location;
      this.date, this.contactInfo, this.imageRef, this.createdBy := date, contactInfo, imageRef, createdBy;
      createdAt, isClaimed, claimedBy, claimedAt := Some(now), false, None, None;
    }

    /** An object materialised by the store from a stored row. */
    constructor Loaded(r: ItemRecord)
      ensures State() == FromRecord(r)
    {
      id, title, description, status := Some(r.id), Some(r.title), r.description, Some(r.status);
      location, date, contactInfo, imageRef := r.location, r.date, r.contactInfo, r.imageRef;
      createdBy, createdAt, isClaimed := r.createdBy, r.createdAt, r.isClaimed;
      claimedBy, claimedAt := r.claimedBy, r.claimedAt;
    }

    method SetTitle(v: Option<string>)
      modifies this
      ensures State() == old(State()).(title := v)
    {
      title := v;
    }

    method SetDescription(v: Option<string>)
      modifies this
      ensures State() == old(State()).(description := v)
    {
      description := v;
    }

    method SetStatus(v: Option<ItemStatus>)
      modifies this
      ensures State() == old(State()).(status := v)
    {
      status := v;
    }

    method SetLocation(v: Option<string>)
      modifies this
      ensures State() == old(State()).(location := v)
    {
      location := v;
    }

    method SetDate(v: Option<Date>)
      modifies this
      ensures State() == old(State()).(date := v)
    {
      date := v;
    }

    method SetContactInfo(v: Option<string>)
      modifies this
      ensures State() == old(State()).(contactInfo := v)
    {
      contactInfo := v;
    }

    method SetImageRef(v: Option<string>)
      modifies this
      ensures State() == old(State()).(imageRef := v)
    {
      imageRef := v;
    }

    method SetCreatedBy(v: Option<string>)
      modifies this
      ensures State() == old(State()).(createdBy := v)
    {
      createdBy := v;
    }

    method SetClaimed(v: bool)
      modifies this
      ensures State() == old(State()).(isClaimed := v)
    {
      isClaimed := v;
    }

    method SetClaimedBy(v: Option<string>)
      modifies this
      ensures State() == old(State()).(claimedBy := v)
    {
      claimedBy := v;
    }

    method SetClaimedAt(v: Option<Timestamp>)
      modifies this
      ensures State() == old(State()).(claimedAt := v)
    {
      claimedAt := v;
    }
  }
}
