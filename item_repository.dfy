/**
 * The `items` table behind the item repository: primary-key operations and the two derived
 * queries, which filter without any promised order.
 */
module ItemRepository {
  import opened Common
  import opened Seqs
  import opened Table
  import opened Items

  /** `findByStatus`: the stored items with that status, each as often as stored. */
  function FindByStatus(rows: seq<ItemRecord>, status: ItemStatus): (r: seq<ItemRecord>)
    ensures forall x :: x in r <==> x in rows && x.status == status
    ensures forall x :: multiset(r)[x] == if x.status == status then multiset(rows)[x] else 0
  {
    Filter(rows, (x: ItemRecord) => x.status == status)
  }

  /** `findByCreatedBy`: the stored items posted by `username`, each as often as stored. */
  function FindByCreatedBy(rows: seq<ItemRecord>, username: string): (r: seq<ItemRecord>)
    ensures forall x :: x in r <==> x in rows && x.createdBy == Some(username)
    ensures forall x :: multiset(r)[x] == if x.createdBy == Some(username) then multiset(rows)[x] else 0
  {
    Filter(rows, (x: ItemRecord) => x.createdBy == Some(username))
  }

  /** Every item is found by exactly one status query, so together they list the table. */
  lemma StatusesPartition(rows: seq<ItemRecord>)
    ensures multiset(FindByStatus(rows, Lost)) + multiset(FindByStatus(rows, Found)) == multiset(rows)
  {
    var lost, found := FindByStatus(rows, Lost), FindByStatus(rows, Found);
    forall x ensures (multiset(lost) + multiset(found))[x] == multiset(rows)[x] {
      assert x.status == Lost || x.status == Found;
    }
  }

  class ItemStore {
    var rows: seq<ItemRecord>
    var nextId: nat

    ghost predicate Valid()
      reads this
    {
      nextId >= 1 && WellFormed(rows, ItemId, nextId)
    }

    constructor ()
      ensures Valid() && rows == [] && nextId == 1
    {
      rows, nextId := [], 1;
    }

    /**
     * `save`: an item without an id is persisted under the next id, which is written back into
     * the object; an item with an id is merged over the row with that id. A null title or status
     * fails, as does an id naming no row, and stores nothing.
     */
    method Save(item: Item) returns (r: Result<ItemRecord, StoreError>)
      requires Valid()
      modifies this, item
      ensures Valid()
      ensures !Storable(old(item.State())) ==>
        r == Err(NullColumn) && rows == old(rows) && nextId == old(nextId) && unchanged(item)
      ensures Storable(old(item.State())) && old(item.id).None? ==>
        && r == Ok(ToRecord(old(item.State()), old(nextId)))
        && rows == old(rows) + [r.value] && nextId == old(nextId) + 1
        && item.State() == old(item.State()).(id := Some(r.value.id))
      ensures old(item.id).Some? ==> unchanged(item) && nextId == old(nextId)
      ensures Storable(old(item.State())) && old(item.id).Some? && Lookup(old(rows), ItemId, old(item.id).value).Some? ==>
        r == Ok(ToRecord(item.State(), item.id.value)) && rows == Replace(old(rows), ItemId, r.value)
      ensures Storable(old(item.State())) && old(item.id).Some? && Lookup(old(rows), ItemId, old(item.id).value).None? ==>
        r == Err(StaleEntity) && rows == old(rows)
    {
      var s := item.State();
      if !Storable(s) {
        return Err(NullColumn);
      }
      if s.id.Some? {
        if Lookup(rows, ItemId, s.id.value).Some? {
          var rec := ToRecord(s, s.id.value);
          rows := Replace(rows, ItemId, rec);
          r := Ok(rec);
        } else {
          r := Err(StaleEntity);
        }
        return;
      }
      var rec := ToRecord(s, nextId);
      AppendWellFormed(rows, ItemId, nextId, rec);
      rows, nextId := rows + [rec], nextId + 1;
      item.id := Some(rec.id);
      r := Ok(rec);
    }

    /** `findById`: a freshly loaded object for the stored row, or nothing. */
    method FindById(id: int) returns (item: Option<Item>)
      ensures item.None? <==> Lookup(rows, ItemId, id).None?
      ensures item.Some? ==> fresh(item.value) && item.value.State() == FromRecord(Lookup(rows, ItemId, id).value)
    {
      var found := Lookup(rows, ItemId, id);
      if found.None? {
        return None;
      }
      var e := new Item.Loaded(found.value);
      item := Some(e);
    }

    /** `deleteById`: drops the row with that id; an unknown id is ignored. */
    method DeleteById(id: int)
      requires Valid()
      modifies this
      ensures Valid() && nextId == old(nextId)
      ensures rows == Remove(old(rows), ItemId, id)
    {
      RemoveWellFormed(rows, ItemId, nextId, id);
      rows := Remove(rows, ItemId, id);
    }
  }
}
