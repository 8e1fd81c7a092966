/** The inventory service's command handlers: reserve stock for an order and release it. */
module InventoryUseCases {
  import opened Wrappers
  import opened Env
  import opened Errors
  import opened Sql
  import opened Tables
  import opened Idempotency
  import opened ReservationEntity
  import opened ReservationStore
  import opened InventoryDto

  /** `toDto`: the reservation's id, order, status text and timestamps. */
  function ToResponse(s: ReservationState): (r: ReservationResponse)
    ensures r.id == s.id && r.orderId == s.orderId && r.status == StatusName(s.status)
    ensures r.createdAt == s.createdAt && r.updatedAt == s.updatedAt
  {
    ReservationResponse(s.id, s.orderId, StatusName(s.status), s.createdAt, s.updatedAt)
  }

  /**
   * A replay answers from the row, which carries no items; the response has no items
   * either, so a replay of an untouched reservation answers exactly the original response.
   */
  lemma ReplayResponseMatches(s: ReservationState)
    ensures ToResponse(FromRow(RowOf(s))) == ToResponse(s)
  {
  }

  /** The domain items built from the request lines. */
  function RequestedItems(lines: seq<ReserveItemRequest>): (items: seq<ReservationItem>)
    ensures |items| == |lines|
    ensures forall i :: 0 <= i < |lines| ==>
      items[i].productId == lines[i].productId && items[i].quantity == lines[i].quantity
  {
    seq(|lines|, i requires 0 <= i < |lines| => ReservationItem(lines[i].productId, lines[i].quantity))
  }

  /** The item-conversion loop: one domain item per request line, same product and quantity, same order. */
  method ConvertItems(lines: seq<ReserveItemRequest>) returns (items: seq<ReservationItem>)
    ensures items == RequestedItems(lines)
  {
    var buffer := new ReservationItem[|lines|];
    for i := 0 to |lines|
      invariant forall j :: 0 <= j < i ==> buffer[j] == RequestedItems(lines)[j]
    {
      buffer[i] := ReservationItem(lines[i].productId, lines[i].quantity);
    }
    items := buffer[..];
  }

  /** A lookup of the key before any write: a failed check, a hit, or a miss. */
  predicate CheckFailed(checkFault: Option<Error>)
  {
    checkFault.Some? && checkFault.value != ErrNoRows
  }

  class ReserveInventory {
    const repo: ReservationRepository

    constructor (repo: ReservationRepository)
      ensures this.repo == repo
    {
      this.repo := repo;
    }

    /**
     * `ReserveInventoryUseCase.Execute`: a failed key check is returned and nothing is
     * written; a hit answers the stored reservation without creating anything; a miss
     * creates a RESERVED reservation for the order with the requested items, in order,
     * and answers it with the id the store assigned, or returns the store's error with
     * no row written.
     */
    method Execute(req: ReserveInventoryRequest, now: Time, freshId: Uuid, checkFault: Option<Error>, writeFault: WriteFault)
      returns (r: Result<ReservationResponse, Error>)
      requires repo.Valid()
      requires freshId !in Ids(repo.reservations)
      modifies repo
      ensures repo.Valid()
      ensures CheckFailed(checkFault) ==>
        r == Err(E(Internal, CheckMessage, checkFault)) && unchanged(repo)
      ensures checkFault.None? && old(Lookup(repo.reservations, repo.keys, req.idempotencyKey, now)).Some? ==>
        r == Ok(ToResponse(FromRow(old(Lookup(repo.reservations, repo.keys, req.idempotencyKey, now)).value)))
        && unchanged(repo)
      ensures !CheckFailed(checkFault) && (checkFault.Some? || old(Lookup(repo.reservations, repo.keys, req.idempotencyKey, now)).None?) ==>
        var created := ReservationState(freshId, req.orderId, RequestedItems(req.items), Reserved, now, now);
        && (Reached(writeFault, |req.items|) ==>
              r == Err(CreateFailure(writeFault.step, writeFault.cause)) && unchanged(repo))
        && (!Reached(writeFault, |req.items|) ==>
              r == Ok(ToResponse(created))
              && repo.reservations == old(repo.reservations) + [RowOf(created)]
              && repo.items == old(repo.items) + ItemRows(freshId, created.items)
              && repo.keys == old(repo.keys) + [Issue(req.idempotencyKey, freshId, Operation, created, now)])
    {
      var existing, err := repo.CheckIdempotency(req.idempotencyKey, now, checkFault);
      if err.Some? {
        return Err(err.value);
      }
      if existing != null {
        return Ok(ToResponse(existing.State()));
      }
      var items := ConvertItems(req.items);
      var reservation := new Reservation(req.orderId, items, now);
      err := repo.Create(reservation, req.idempotencyKey, freshId, now, writeFault);
      if err.Some? {
        return Err(err.value);
      }
      r := Ok(ToResponse(reservation.State()));
    }
  }

  class ReleaseInventory {
    const repo: ReservationRepository

    constructor (repo: ReservationRepository)
      ensures this.repo == repo
    {
      this.repo := repo;
    }

    /**
     * `ReleaseInventoryUseCase.Execute`: a failed key check is returned; a hit answers the
     * reservation the key points at and writes nothing; otherwise the order's reservation
     * is loaded, released whatever its status, and written back by `Update`, which records
     * no key. Every failure is returned as the repository reported it, with no write.
     */
    method Execute(req: ReleaseInventoryRequest, now: Time, checkFault: Option<Error>,
                   rowFault: Option<Error>, itemsFault: ItemsFault, updateFault: Option<Error>)
      returns (r: Result<ReservationResponse, Error>)
      requires repo.Valid()
      modifies repo
      ensures repo.Valid()
      ensures repo.items == old(repo.items) && repo.keys == old(repo.keys)
      ensures CheckFailed(checkFault) ==>
        r == Err(E(Internal, CheckMessage, checkFault)) && unchanged(repo)
      ensures checkFault.None? && old(Lookup(repo.reservations, repo.keys, req.idempotencyKey, now)).Some? ==>
        r == Ok(ToResponse(FromRow(old(Lookup(repo.reservations, repo.keys, req.idempotencyKey, now)).value)))
        && unchanged(repo)
      ensures !CheckFailed(checkFault) && (checkFault.Some? || old(Lookup(repo.reservations, repo.keys, req.idempotencyKey, now)).None?) ==>
        && (rowFault.Some? ==> r == Err(E(Internal, GetByOrderMessage, rowFault)) && unchanged(repo))
        && (rowFault.None? && IndexOfOrder(old(repo.reservations), req.orderId).None? ==>
              r == Err(E(Internal, GetByOrderMessage, Some(ErrNoRows))) && unchanged(repo))
        && (rowFault.None? && IndexOfOrder(old(repo.reservations), req.orderId).Some? ==>
              var row := old(repo.reservations)[IndexOfOrder(old(repo.reservations), req.orderId).value];
              var stored := ItemsOf(old(repo.items), row.id);
              var loads := itemsFault.NoItemsFault? || (itemsFault.ScanFails? && itemsFault.row >= |stored|);
              && (!loads ==>
                    r == Err(E(Internal, LoadItemsMessage, Some(E(Internal, LoadItemsMessage, Some(itemsFault.cause)))))
                    && unchanged(repo))
              && (loads && updateFault.Some? ==> r == Err(updateFault.value) && unchanged(repo))
              && (loads && updateFault.None? ==>
                    r == Ok(ToResponse(AfterRelease(FromRow(row).(items := stored), now)))
                    && repo.reservations == SetStatus(old(repo.reservations), row.id, Released, now)))
    {
      var existing, err := repo.CheckIdempotency(req.idempotencyKey, now, checkFault);
      if err.Some? {
        return Err(err.value);
      }
      if existing != null {
        return Ok(ToResponse(existing.State()));
      }
      var reservation;
      reservation, err := repo.GetByOrderID(req.orderId, rowFault, itemsFault);
      if err.Some? {
        return Err(err.value);
      }
      reservation.Release(now);
      err := repo.Update(reservation, updateFault);
      if err.Some? {
        return Err(err.value);
      }
      r := Ok(ToResponse(reservation.State()));
    }
  }

  /**
   * The same reserve request sent twice, the second time before the key expires: the
   * second call answers the reservation the first created, with the same id, and writes
   * nothing more.
   */
  method ReserveTwice(uc: ReserveInventory, req: ReserveInventoryRequest, t1: Time, t2: Time, id1: Uuid, id2: Uuid)
    returns (first: Result<ReservationResponse, Error>, second: Result<ReservationResponse, Error>)
    requires uc.repo.Valid()
    requires id1 !in Ids(uc.repo.reservations) && id2 != id1 && id2 !in Ids(uc.repo.reservations)
    requires Lookup(uc.repo.reservations, uc.repo.keys, req.idempotencyKey, t1).None?
    requires t1 <= t2 < t1 + TTL
    modifies uc.repo
    ensures first.Ok? && second == first && first.value.id == id1
    ensures |uc.repo.reservations| == |old(uc.repo.reservations)| + 1
  {
    first := uc.Execute(req, t1, id1, None, NoWriteFault);
    var created := ReservationState(id1, req.orderId, RequestedItems(req.items), Reserved, t1, t1);
    var record := Issue(req.idempotencyKey, id1, Operation, created, t1);
    MissPersists(old(uc.repo.reservations), old(uc.repo.keys), req.idempotencyKey, t1, t2);
    LookupAfterCreate(old(uc.repo.reservations), old(uc.repo.keys), RowOf(created), record, t2);
    second := uc.Execute(req, t2, id2, None, NoWriteFault);
  }

  /**
   * The same release sent twice with a key no create ever stored: `Update` records no
   * key, so the second call runs again, answers RELEASED for the same reservation and
   * restamps its row with the second call's time; the record table is untouched.
   */
  method ReleaseTwice(uc: ReleaseInventory, req: ReleaseInventoryRequest, t1: Time, t2: Time)
    returns (first: Result<ReservationResponse, Error>, second: Result<ReservationResponse, Error>)
    requires uc.repo.Valid()
    requires IndexOfOrder(uc.repo.reservations, req.orderId).Some?
    requires forall r :: r in uc.repo.keys ==> r.key != req.idempotencyKey
    modifies uc.repo
    ensures first.Ok? && second.Ok? && first.value.status == second.value.status == "RELEASED"
    ensures first.value.id == second.value.id && second.value.updatedAt == t2
    ensures uc.repo.keys == old(uc.repo.keys)
    ensures IndexOfOrder(uc.repo.reservations, req.orderId) == IndexOfOrder(old(uc.repo.reservations), req.orderId)
    ensures var k := IndexOfOrder(uc.repo.reservations, req.orderId).value;
      uc.repo.reservations[k].status == Released && uc.repo.reservations[k].updatedAt == t2
  {
    var k := IndexOfOrder(uc.repo.reservations, req.orderId).value;
    var id := uc.repo.reservations[k].id;
    LookupExpired(uc.repo.reservations, uc.repo.keys, req.idempotencyKey, t1);
    var before1 := uc.repo.reservations;
    first := uc.Execute(req, t1, None, None, NoItemsFault, None);
    SetStatusFrame(before1, id, Released, t1);
    IndexOfOrderAfterSetStatus(before1, id, Released, t1, req.orderId);
    LookupExpired(uc.repo.reservations, uc.repo.keys, req.idempotencyKey, t2);
    var before2 := uc.repo.reservations;
    second := uc.Execute(req, t2, None, None, NoItemsFault, None);
    SetStatusFrame(before2, id, Released, t2);
    IndexOfOrderAfterSetStatus(before2, id, Released, t2, req.orderId);
  }
}
