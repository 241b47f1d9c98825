/**
 * The item service: creating, finding, updating and deleting posts. `updateItem` loads the
 * stored item, copies seven editable fields from the request onto it and saves it.
 */
module ItemService {
  import opened Common
  import opened Seqs
  import opened Table
  import opened Items
  import opened ItemRepository

  /** Why `updateItem` threw: no item under the id, or the save refused the edited item. */
  datatype UpdateError = ItemNotFound | SaveFailed(reason: StoreError)

  /** `s` with the seven fields a request may edit taken from `u`. */
  function WithEdits(s: ItemState, u: ItemState): ItemState {
    s.(title := u.title, description := u.description, status := u.status, location := u.location,
       date := u.date, contactInfo := u.contactInfo, imageRef := u.imageRef)
  }

  /**
   * What `updateItem(id, u)` stores and returns: the row with that id, with title, description,
   * status, location, date, contact info and image taken from `u`, and id, owner, creation time
   * and the three claim fields kept from the row.
   */
  function Updated(rows: seq<ItemRecord>, id: int, u: ItemState): (r: Result<ItemRecord, UpdateError>)
    ensures r == Err(ItemNotFound) <==> Lookup(rows, ItemId, id).None?
    ensures r == Err(SaveFailed(NullColumn)) <==> Lookup(rows, ItemId, id).Some? && !Storable(u)
    ensures r.Ok? <==> Lookup(rows, ItemId, id).Some? && Storable(u)
    ensures r.Ok? ==>
      var was := Lookup(rows, ItemId, id).value;
      && r.value.id == was.id == id
      && Some(r.value.title) == u.title && r.value.description == u.description
      && Some(r.value.status) == u.status && r.value.location == u.location
      && r.value.date == u.date && r.value.contactInfo == u.contactInfo && r.value.imageRef == u.imageRef
      && r.value.createdBy == was.createdBy && r.value.createdAt == was.createdAt
      && r.value.isClaimed == was.isClaimed && r.value.claimedBy == was.claimedBy
      && r.value.claimedAt == was.claimedAt
  {
    match Lookup(rows, ItemId, id)
    case None => Err(ItemNotFound)
    case Some(was) =>
      var s := WithEdits(FromRecord(was), u);
      if Storable(s) then Ok(ToRecord(s, was.id)) else Err(SaveFailed(NullColumn))
  }

  /** The table after `updateItem(id, u)`. */
  function AfterUpdate(rows: seq<ItemRecord>, id: int, u: ItemState): seq<ItemRecord> {
    match Updated(rows, id, u)
    case Ok(row) => Replace(rows, ItemId, row)
    case Err(_) => rows
  }

  /**
   * A successful update keeps the table well formed, makes the id find the updated row, and
   * leaves every other id finding what it found before.
   */
  lemma UpdateTouchesOnlyItsRow(rows: seq<ItemRecord>, nextId: nat, id: int, u: ItemState, other: int)
    requires WellFormed(rows, ItemId, nextId)
    ensures WellFormed(AfterUpdate(rows, id, u), ItemId, nextId)
    ensures Lookup(AfterUpdate(rows, id, u), ItemId, other) ==
            if other == id && Updated(rows, id, u).Ok? then Some(Updated(rows, id, u).value)
            else Lookup(rows, ItemId, other)
  {
    var r := Updated(rows, id, u);
    if r.Ok? {
      LookupReplace(rows, ItemId, r.value, other);
    }
  }

  /** Sending the same update twice stores the same table as sending it once. */
  lemma UpdateIdempotent(rows: seq<ItemRecord>, nextId: nat, id: int, u: ItemState)
    requires WellFormed(rows, ItemId, nextId)
    ensures Updated(AfterUpdate(rows, id, u), id, u) == Updated(rows, id, u)
    ensures AfterUpdate(AfterUpdate(rows, id, u), id, u) == AfterUpdate(rows, id, u)
  {
    var r := Updated(rows, id, u);
    if r.Ok? {
      LookupReplace(rows, ItemId, r.value, id);
      ReplaceTwice(rows, ItemId, r.value, r.value);
    }
  }

  class ItemService {
    const repo: ItemStore

    constructor (repo: ItemStore)
      ensures this.repo == repo
    {
      this.repo := repo;
    }

    /** `createItem`: saves the item and returns the stored row. */
    method CreateItem(item: Item) returns (r: Result<ItemRecord, StoreError>)
      requires repo.Valid()
      modifies repo, item
      ensures repo.Valid()
      ensures !Storable(old(item.State())) ==> r == Err(NullColumn) && repo.rows == old(repo.rows)
      ensures Storable(old(item.State())) && old(item.id).None? ==>
        && r == Ok(ToRecord(old(item.State()), old(repo.nextId)))
        && repo.rows == old(repo.rows) + [r.value]
      ensures Storable(old(item.State())) && old(item.id).Some? ==>
        if Lookup(old(repo.rows), ItemId, old(item.id).value).Some?
        then r == Ok(ToRecord(old(item.State()), old(item.id).value)) && repo.rows == Replace(old(repo.rows), ItemId, r.value)
        else r == Err(StaleEntity) && repo.rows == old(repo.rows)
    {
      r := repo.Save(item);
    }

    /** `getItemById`: a freshly loaded object for the stored item, or nothing. */
    method GetItemById(id: int) returns (item: Option<Item>)
      ensures item.None? <==> Lookup(repo.rows, ItemId, id).None?
      ensures item.Some? ==> fresh(item.value) && item.value.State() == FromRecord(Lookup(repo.rows, ItemId, id).value)
    {
      item := repo.FindById(id);
    }

    /** `getItemsByStatus`: exactly the stored items with that status. */
    function GetItemsByStatus(status: ItemStatus): (r: seq<ItemRecord>)
      reads repo
      ensures forall x :: x in r <==> x in repo.rows && x.status == status
      ensures forall x :: multiset(r)[x] == if x.status == status then multiset(repo.rows)[x] else 0
    {
      FindByStatus(repo.rows, status)
    }

    /** `getItemsByCreatedBy`: exactly the stored items posted by `username`. */
    function GetItemsByCreatedBy(username: string): (r: seq<ItemRecord>)
      reads repo
      ensures forall x :: x in r <==> x in repo.rows && x.createdBy == Some(username)
      ensures forall x :: multiset(r)[x] == if x.createdBy == Some(username) then multiset(repo.rows)[x] else 0
    {
      FindByCreatedBy(repo.rows, username)
    }

    /**
     * `updateItem`: not found when no item has the id; otherwise the seven editable fields are
     * copied onto the loaded item, which is then saved.
     */
    method UpdateItem(id: int, updated: Item) returns (r: Result<ItemRecord, UpdateError>)
      requires repo.Valid()
      modifies repo
      ensures repo.Valid() && repo.nextId == old(repo.nextId)
      ensures r == Updated(old(repo.rows), id, updated.State())
      ensures repo.rows == AfterUpdate(old(repo.rows), id, updated.State())
    {
      var found := repo.FindById(id);
      if found.None? {
        return Err(ItemNotFound);
      }
      var item := found.value;
      item.SetTitle(updated.title);
      item.SetDescription(updated.description);
      item.SetStatus(updated.status);
      item.SetLocation(updated.location);
      item.SetDate(updated.date);
      item.SetContactInfo(updated.contactInfo);
      item.SetImageRef(updated.imageRef);
      var saved := repo.Save(item);
      if saved.Err? {
        return Err(SaveFailed(saved.error));
      }
      return Ok(saved.value);
    }

    /** `deleteItem`: drops the item with that id, if any. */
    method DeleteItem(id: int)
      requires repo.Valid()
      modifies repo
      ensures repo.Valid() && repo.nextId == old(repo.nextId)
      ensures repo.rows == Remove(old(repo.rows), ItemId, id)
    {
      repo.DeleteById(id);
    }
  }
}
