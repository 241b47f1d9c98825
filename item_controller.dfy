/**
 * The `/api/items` endpoints. Creating, editing, deleting, claiming and unclaiming need a
 * principal; claiming and unclaiming are further reserved to the item's creator.
 */
module ItemController {
  import opened Common
  import opened Seqs
  import opened Table
  import opened Items
  import opened ItemRepository
  import opened ItemService

  datatype Body =
    | NoBody
    | ErrorBody(error: string)
    | ItemBody(item: ItemRecord)
    | ItemsBody(items: seq<ItemRecord>)

  const ONLY_OWNER_CLAIMS: string := "Only the item owner can mark it as claimed"
  const ONLY_OWNER_UNCLAIMS: string := "Only the item owner can unmark it"

  function Unauthenticated(): Response<Body> {
    Response(UNAUTHORIZED, ErrorBody(UNAUTHENTICATED))
  }

  function NotFound(): Response<Body> {
    Response(NOT_FOUND, NoBody)
  }

  /** An item marked claimed at `now`; who claimed it is left as it was. */
  function ClaimedRow(r: ItemRecord, now: Timestamp): ItemRecord {
    r.(isClaimed := true, claimedAt := Some(now))
  }

  /** An item with its claim withdrawn: not claimed, by nobody, at no time. */
  function UnclaimedRow(r: ItemRecord): ItemRecord {
    r.(isClaimed := false, claimedBy := None, claimedAt := None)
  }

  /**
   * Unclaiming right after claiming stores what unclaiming alone stores; for an item that was
   * never claimed that is the table it started from.
   */
  lemma UnclaimUndoesClaim(rows: seq<ItemRecord>, nextId: nat, r: ItemRecord, now: Timestamp)
    requires WellFormed(rows, ItemId, nextId) && r in rows
    ensures Replace(Replace(rows, ItemId, ClaimedRow(r, now)), ItemId, UnclaimedRow(ClaimedRow(r, now))) ==
            Replace(rows, ItemId, UnclaimedRow(r))
    ensures !r.isClaimed && r.claimedBy.None? && r.claimedAt.None? ==>
            Replace(Replace(rows, ItemId, ClaimedRow(r, now)), ItemId, UnclaimedRow(ClaimedRow(r, now))) == rows
  {
    ReplaceTwice(rows, ItemId, ClaimedRow(r, now), UnclaimedRow(ClaimedRow(r, now)));
    if !r.isClaimed && r.claimedBy.None? && r.claimedAt.None? {
      assert UnclaimedRow(r) == r;
      ReplaceStored(rows, ItemId, r);
    }
  }

  /** A later edit of the item through `updateItem` keeps a claim in place. */
  lemma ClaimSurvivesUpdate(rows: seq<ItemRecord>, nextId: nat, r: ItemRecord, now: Timestamp, u: ItemState)
    requires WellFormed(rows, ItemId, nextId) && r in rows
    ensures Updated(Replace(rows, ItemId, ClaimedRow(r, now)), r.id, u).Ok? ==>
      var edited := Updated(Replace(rows, ItemId, ClaimedRow(r, now)), r.id, u).value;
      edited.isClaimed && edited.claimedAt == Some(now) && edited.claimedBy == r.claimedBy
  {
    LookupFinds(rows, ItemId, r);
    LookupReplace(rows, ItemId, ClaimedRow(r, now), r.id);
  }

  class ItemController {
    const service: ItemService

    constructor (service: ItemService)
      ensures this.service == service
    {
      this.service := service;
    }

    /**
     * `POST /api/items`: the principal's name replaces whatever owner the body named, then the item
     * is saved; a save that throws is not caught and surfaces as a server error.
     */
    method CreateItem(item: Item, principal: Principal) returns (resp: Response<Body>)
      requires service.repo.Valid()
      modifies service.repo, item
      ensures service.repo.Valid()
      ensures principal.None? ==> resp == Unauthenticated() && unchanged(service.repo) && unchanged(item)
      ensures principal.Some? ==>
        var s := old(item.State()).(createdBy := Some(principal.value));
        && (!Storable(s) ==> resp == Response(SERVER_ERROR, NoBody) && service.repo.rows == old(service.repo.rows))
        && (Storable(s) && s.id.None? ==>
              var row := ToRecord(s, old(service.repo.nextId));
              resp == Response(CREATED, ItemBody(row)) && service.repo.rows == old(service.repo.rows) + [row])
        && (Storable(s) && s.id.Some? && Lookup(old(service.repo.rows), ItemId, s.id.value).Some? ==>
              var row := ToRecord(s, s.id.value);
              resp == Response(CREATED, ItemBody(row)) && service.repo.rows == Replace(old(service.repo.rows), ItemId, row))
        && (Storable(s) && s.id.Some? && Lookup(old(service.repo.rows), ItemId, s.id.value).None? ==>
              resp == Response(SERVER_ERROR, NoBody) && service.repo.rows == old(service.repo.rows))
    {
      if principal.None? {
        return Unauthenticated();
      }
      item.SetCreatedBy(Some(principal.value));
      var created := service.CreateItem(item);
      if created.Err? {
        return Response(SERVER_ERROR, NoBody);
      }
      return Response(CREATED, ItemBody(created.value));
    }

    /** `GET /api/items/{id}`: the stored item, or 404. */
    method GetItemById(id: int) returns (resp: Response<Body>)
      ensures resp == match Lookup(service.repo.rows, ItemId, id)
                      case None => NotFound()
                      case Some(r) => Response(OK, ItemBody(r))
    {
      var found := service.GetItemById(id);
      if found.None? {
        return NotFound();
      }
      var item := found.value;
      return Response(OK, ItemBody(ToRecord(item.State(), item.id.value)));
    }

    /** `GET /api/items/status/{status}`. */
    function GetItemsByStatus(status: ItemStatus): (r: Response<Body>)
      reads service.repo
      ensures r.status == OK && r.body.ItemsBody?
      ensures forall x :: x in r.body.items <==> x in service.repo.rows && x.status == status
      ensures forall x :: multiset(r.body.items)[x] == if x.status == status then multiset(service.repo.rows)[x] else 0
    {
      Response(OK, ItemsBody(service.GetItemsByStatus(status)))
    }

    /** `GET /api/items/user/{username}`. */
    function GetItemsByUser(username: string): (r: Response<Body>)
      reads service.repo
      ensures r.status == OK && r.body.ItemsBody?
      ensures forall x :: x in r.body.items <==> x in service.repo.rows && x.createdBy == Some(username)
      ensures forall x :: multiset(r.body.items)[x] == if x.createdBy == Some(username) then multiset(service.repo.rows)[x] else 0
    {
      Response(OK, ItemsBody(service.GetItemsByCreatedBy(username)))
    }

    /** `PUT /api/items/{id}`: any failure of the update, a missing id included, answers 404. */
    method UpdateItem(id: int, updated: Item, principal: Principal) returns (resp: Response<Body>)
      requires service.repo.Valid()
      modifies service.repo
      ensures service.repo.Valid()
      ensures principal.None? ==> resp == Unauthenticated() && unchanged(service.repo)
      ensures principal.Some? ==>
        && service.repo.rows == AfterUpdate(old(service.repo.rows), id, updated.State())
        && resp == match Updated(old(service.repo.rows), id, updated.State())
                   case Ok(r) => Response(OK, ItemBody(r))
                   case Err(_) => NotFound()
    {
      if principal.None? {
        return Unauthenticated();
      }
      var r := service.UpdateItem(id, updated);
      if r.Err? {
        return NotFound();
      }
      return Response(OK, ItemBody(r.value));
    }

    /** `DELETE /api/items/{id}`: 204 whether or not the item existed. */
    method DeleteItem(id: int, principal: Principal) returns (resp: Response<Body>)
      requires service.repo.Valid()
      modifies service.repo
      ensures service.repo.Valid()
      ensures principal.None? ==> resp == Unauthenticated() && unchanged(service.repo)
      ensures principal.Some? ==>
        resp == Response(NO_CONTENT, NoBody) && service.repo.rows == Remove(old(service.repo.rows), ItemId, id)
    {
      if principal.None? {
        return Unauthenticated();
      }
      service.DeleteItem(id);
      return Response(NO_CONTENT, NoBody);
    }

    /**
     * `PUT /api/items/{id}/claim`: 401 without a principal, then 404 for an unknown id (or an item
     * with no recorded creator, whose owner comparison throws), then 403 unless the caller created
     * the item; the owner's request marks it claimed now.
     */
    method MarkAsClaimed(id: int, principal: Principal, now: Timestamp) returns (resp: Response<Body>)
      requires service.repo.Valid()
      modifies service.repo
      ensures service.repo.Valid() && service.repo.nextId == old(service.repo.nextId)
      ensures principal.None? ==> resp == Unauthenticated() && unchanged(service.repo)
      ensures principal.Some? && Lookup(old(service.repo.rows), ItemId, id).None? ==>
        resp == NotFound() && service.repo.rows == old(service.repo.rows)
      ensures principal.Some? && Lookup(old(service.repo.rows), ItemId, id).Some? ==>
        var r := Lookup(old(service.repo.rows), ItemId, id).value;
        && (r.createdBy.None? ==> resp == NotFound() && service.repo.rows == old(service.repo.rows))
        && (r.createdBy.Some? && r.createdBy != principal ==>
              resp == Response(FORBIDDEN, ErrorBody(ONLY_OWNER_CLAIMS)) && service.repo.rows == old(service.repo.rows))
        && (r.createdBy == principal ==>
              resp == Response(OK, ItemBody(ClaimedRow(r, now)))
              && service.repo.rows == Replace(old(service.repo.rows), ItemId, ClaimedRow(r, now)))
    {
      if principal.None? {
        return Unauthenticated();
      }
      var found := service.GetItemById(id);
      if found.None? {
        return NotFound();
      }
      var item := found.value;
      if item.createdBy.None? {
        return NotFound();
      }
      if item.createdBy.value != principal.value {
        return Response(FORBIDDEN, ErrorBody(ONLY_OWNER_CLAIMS));
      }
      item.SetClaimed(true);
      item.SetClaimedAt(Some(now));
      // The request shares one persistence context, so the update's reload returns this very
      // object and its seven-field copy is a copy onto itself: what is stored is `item` as edited.
      var updated := service.repo.Save(item);
      return Response(OK, ItemBody(updated.value));
    }

    /**
     * `PUT /api/items/{id}/unclaim`: the same checks as claiming; the owner's request clears the
     * claim flag, the claimant and the claim time.
     */
    method MarkAsUnclaimed(id: int, principal: Principal) returns (resp: Response<Body>)
      requires service.repo.Valid()
      modifies service.repo
      ensures service.repo.Valid() && service.repo.nextId == old(service.repo.nextId)
      ensures principal.None? ==> resp == Unauthenticated() && unchanged(service.repo)
      ensures principal.Some? && Lookup(old(service.repo.rows), ItemId, id).None? ==>
        resp == NotFound() && service.repo.rows == old(service.repo.rows)
      ensures principal.Some? && Lookup(old(service.repo.rows), ItemId, id).Some? ==>
        var r := Lookup(old(service.repo.rows), ItemId, id).value;
        && (r.createdBy.None? ==> resp == NotFound() && service.repo.rows == old(service.repo.rows))
        && (r.createdBy.Some? && r.createdBy != principal ==>
              resp == Response(FORBIDDEN, ErrorBody(ONLY_OWNER_UNCLAIMS)) && service.repo.rows == old(service.repo.rows))
        && (r.createdBy == principal ==>
              resp == Response(OK, ItemBody(UnclaimedRow(r)))
              && service.repo.rows == Replace(old(service.repo.rows), ItemId, UnclaimedRow(r)))
    {
      if principal.None? {
        return Unauthenticated();
      }
      var found := service.GetItemById(id);
      if found.None? {
        return NotFound();
      }
      var item := found.value;
      if item.createdBy.None? {
        return NotFound();
      }
      if item.createdBy.value != principal.value {
        return Response(FORBIDDEN, ErrorBody(ONLY_OWNER_UNCLAIMS));
      }
      item.SetClaimed(false);
      item.SetClaimedBy(None);
      item.SetClaimedAt(None);
      // As in claiming: the update stores this object as edited.
      var updated := service.repo.Save(item);
      return Response(OK, ItemBody(updated.value));
    }
  }
}
