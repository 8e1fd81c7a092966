/**
 * The inventory service's reservation repository over in-memory tables: reservations,
 * reservation items and reservation idempotency records.
 */
module ReservationStore {
  import opened Wrappers
  import opened Env
  import opened Errors
  import opened Sql
  import opened Tables
  import opened Idempotency
  import opened ReservationEntity
  import ErrorMapper

  /** A row of `reservations`; its own column is `order_id`. */
  type ReservationRow = Row<string, ReservationStatus>

  /** The operation name written with every record. */
  const Operation: string := "RESERVE"

  const LoadItemsMessage: string := "failed to load reservation items"
  const GetByOrderMessage: string := "failed to get reservation by order id"
  const CheckMessage: string := "failed to check idempotency"

  /** The error `Create` returns when the statement `step` fails with `cause`. */
  function CreateFailure(step: WriteStep, cause: Error): Error
  {
    match step
    case Begin => E(Internal, "failed to begin transaction", Some(cause))
    case InsertRow => E(Internal, "failed to insert reservation", Some(cause))
    case InsertItem(_) => E(Internal, "failed to insert reservation item", Some(cause))
    case InsertKey => E(Internal, "failed to store idempotency key", Some(cause))
    case Commit => cause
  }

  /**
   * Every failure before the commit reaches a client as a bare internal error; a failed
   * commit is returned unwrapped and classified by the driver's own error.
   */
  lemma CreateFailureStatus(step: WriteStep, cause: Error)
    ensures step != Commit ==>
      ErrorMapper.ToStatus(Some(CreateFailure(step, cause)))
        == Some(ErrorMapper.Status(ErrorMapper.Internal, ErrorMapper.GenericMessage))
    ensures step == Commit ==> CreateFailure(step, cause) == cause
  {
  }

  /** The row a reservation is inserted as. */
  function RowOf(s: ReservationState): ReservationRow
  {
    Row(s.id, s.orderId, s.status, s.createdAt, s.updatedAt)
  }

  /** A reservation read back from its row: the row's columns and no items. */
  function FromRow(r: ReservationRow): (s: ReservationState)
    ensures RowOf(s) == r && s.items == []
  {
    ReservationState(r.id, r.columns, [], r.status, r.createdAt, r.updatedAt)
  }

  /** `WHERE order_id = $1` under `QueryRow`: the first row for the order. */
  function IndexOfOrder(rows: seq<ReservationRow>, orderId: string): (r: Option<nat>)
    ensures r.None? <==> forall i :: 0 <= i < |rows| ==> rows[i].columns != orderId
    ensures r.Some? ==> r.value < |rows| && rows[r.value].columns == orderId
    ensures r.Some? ==> forall i :: 0 <= i < r.value ==> rows[i].columns != orderId
  {
    if rows == [] then None
    else if rows[0].columns == orderId then Some(0)
    else
      match IndexOfOrder(rows[1..], orderId)
      case None => None
      case Some(k) => Some(k + 1)
  }

  /** A status update keeps every row's order id in place, so it selects the same row by order. */
  lemma IndexOfOrderAfterSetStatus(rows: seq<ReservationRow>, id: string, status: ReservationStatus, at: Time, orderId: string)
    ensures IndexOfOrder(SetStatus(rows, id, status, at), orderId) == IndexOfOrder(rows, orderId)
  {
    SetStatusFrame(rows, id, status, at);
    var after := IndexOfOrder(SetStatus(rows, id, status, at), orderId);
    var before := IndexOfOrder(rows, orderId);
    if before.Some? && after.Some? {
      assert !(after.value < before.value) && !(before.value < after.value);
    }
  }

  class ReservationRepository {
    var reservations: seq<ReservationRow>
    var items: seq<ItemRow<ReservationItem>>
    var keys: seq<Record<ReservationState>>

    /** Ids are unique, and every item and every record belongs to a stored reservation. */
    predicate Valid()
      reads this
    {
      IdsUnique(reservations) && ItemsOwned(reservations, items) && RecordsJoin(reservations, keys)
    }

    constructor ()
      ensures Valid() && reservations == [] && items == [] && keys == []
    {
      reservations := [];
      items := [];
      keys := [];
    }

    /**
     * `Create`: draws the id (`freshId`, the uuid) once the transaction has begun and
     * writes it into `reservation` at once, then inserts the row, one item row per item in
     * order and the `RESERVE` record, and commits. All three tables change together or
     * not at all; the caller's object keeps the new id even when a later statement fails.
     */
    method Create(reservation: Reservation, key: string, freshId: Uuid, now: Time, fault: WriteFault)
      returns (err: Option<Error>)
      requires Valid()
      requires freshId !in Ids(reservations)
      modifies this, reservation
      ensures Valid()
      ensures reservation.State()
           == old(reservation.State()).(id := if FailsAt(fault, Begin) then old(reservation.id) else freshId)
      ensures err.None? <==> !Reached(fault, |old(reservation.items)|)
      ensures err.Some? ==>
        err.value == CreateFailure(fault.step, fault.cause) && unchanged(this)
      ensures err.None? ==>
        reservations == old(reservations) + [RowOf(reservation.State())]
        && items == old(items) + ItemRows(freshId, reservation.items)
        && keys == old(keys) + [Issue(key, freshId, Operation, reservation.State(), now)]
    {
      if FailsAt(fault, Begin) {
        return Some(CreateFailure(Begin, fault.cause));
      }
      reservation.id := freshId;
      if FailsAt(fault, InsertRow) {
        return Some(CreateFailure(InsertRow, fault.cause));
      }
      var row := RowOf(reservation.State());
      var lines := reservation.items;
      var pending := items;
      var i := 0;
      while i < |lines|
        invariant 0 <= i <= |lines|
        invariant pending == items + ItemRows(freshId, lines[..i])
        invariant forall j :: 0 <= j < i ==> !FailsAt(fault, InsertItem(j))
        modifies {}
      {
        if FailsAt(fault, InsertItem(i)) {
          return Some(CreateFailure(InsertItem(i), fault.cause));
        }
        ItemRowsPrefix(freshId, lines, i);
        pending := pending + [ItemRow(freshId, lines[i])];
        i := i + 1;
      }
      assert lines[..i] == lines;
      if FailsAt(fault, InsertKey) {
        return Some(CreateFailure(InsertKey, fault.cause));
      }
      var record := Issue(key, freshId, Operation, reservation.State(), now);
      if FailsAt(fault, Commit) {
        return Some(CreateFailure(Commit, fault.cause));
      }
      ItemsOwnedAppend(reservations, items, row, lines);
      IdsAppend(reservations, row);
      reservations := reservations + [row];
      items := pending;
      keys := keys + [record];
      err := None;
    }

    /**
     * `CheckIdempotency`: the reservation of the first live record for `key`, read from
     * its current row and without items. A query that fails with `fault` reports the
     * no-rows sentinel as a miss and anything else as an internal error.
     */
    method CheckIdempotency(key: string, now: Time, fault: Option<Error>)
      returns (existing: Reservation?, err: Option<Error>)
      ensures fault.Some? && fault.value != ErrNoRows ==>
        existing == null && err == Some(E(Internal, CheckMessage, fault))
      ensures fault == Some(ErrNoRows) ==> existing == null && err.None?
      ensures fault.None? ==> err.None? && (existing == null <==> Lookup(reservations, keys, key, now).None?)
      ensures existing != null ==>
        fresh(existing) && existing.State() == FromRow(Lookup(reservations, keys, key, now).value)
    {
      existing := null;
      err := None;
      if fault == Some(ErrNoRows) {
        return;
      }
      if fault.Some? {
        err := Some(E(Internal, CheckMessage, fault));
        return;
      }
      match Lookup(reservations, keys, key, now)
      case None =>
      case Some(row) =>
        var s := FromRow(row);
        existing := new Reservation(s.orderId, [], s.createdAt);
        existing.id := s.id;
        existing.status := s.status;
        existing.updatedAt := s.updatedAt;
    }

    /**
     * `loadItems`: the items stored for the reservation, in table order, read row by row.
     * A failing query, a failing scan of a selected row, or a deferred iteration error each
     * yield the same internal error.
     */
    method LoadItems(reservationId: string, fault: ItemsFault) returns (r: Result<seq<ReservationItem>, Error>)
      ensures fault.NoItemsFault? ==> r == Ok(ItemsOf(items, reservationId))
      ensures fault.QueryFails? || fault.IterationFails? ==> r == Err(E(Internal, LoadItemsMessage, Some(fault.cause)))
      ensures fault.ScanFails? ==>
        r == if fault.row < |ItemsOf(items, reservationId)| then Err(E(Internal, LoadItemsMessage, Some(fault.cause)))
             else Ok(ItemsOf(items, reservationId))
    {
      if fault.QueryFails? {
        return Err(E(Internal, LoadItemsMessage, Some(fault.cause)));
      }
      var loaded: seq<ReservationItem> := [];
      var i := 0;
      while i < |items|
        invariant 0 <= i <= |items|
        invariant loaded == ItemsOf(items[..i], reservationId)
        invariant fault.ScanFails? ==> fault.row >= |loaded|
      {
        ItemsOfPrefix(items, i, reservationId);
        if items[i].ownerId == reservationId {
          if fault.ScanFails? && fault.row == |loaded| {
            ItemsOfAppend(items[..i + 1], items[i + 1..], reservationId);
            assert items[..i + 1] + items[i + 1..] == items;
            return Err(E(Internal, LoadItemsMessage, Some(fault.cause)));
          }
          loaded := loaded + [items[i].item];
        }
        i := i + 1;
      }
      assert items[..i] == items;
      if fault.IterationFails? {
        return Err(E(Internal, LoadItemsMessage, Some(fault.cause)));
      }
      r := Ok(loaded);
    }

    /**
     * `GetByOrderID`: the first reservation for the order with its items. Every failure,
     * a missing row included, is an internal error; a failure to load items is wrapped
     * twice in the same message.
     */
    method GetByOrderID(orderId: string, rowFault: Option<Error>, itemsFault: ItemsFault)
      returns (found: Reservation?, err: Option<Error>)
      ensures found == null <==> err.Some?
      ensures rowFault.Some? ==> err == Some(E(Internal, GetByOrderMessage, rowFault))
      ensures rowFault.None? && IndexOfOrder(reservations, orderId).None? ==>
        err == Some(E(Internal, GetByOrderMessage, Some(ErrNoRows)))
      ensures rowFault.None? && IndexOfOrder(reservations, orderId).Some? ==>
        var row := reservations[IndexOfOrder(reservations, orderId).value];
        var stored := ItemsOf(items, row.id);
        && (itemsFault.NoItemsFault? || (itemsFault.ScanFails? && itemsFault.row >= |stored|) <==> err.None?)
        && (err.Some? ==> err == Some(E(Internal, LoadItemsMessage, Some(E(Internal, LoadItemsMessage, Some(itemsFault.cause))))))
        && (found != null ==> fresh(found) && found.State() == FromRow(row).(items := stored))
    {
      found := null;
      if rowFault.Some? {
        err := Some(E(Internal, GetByOrderMessage, rowFault));
        return;
      }
      var k := IndexOfOrder(reservations, orderId);
      if k.None? {
        err := Some(E(Internal, GetByOrderMessage, Some(ErrNoRows)));
        return;
      }
      var row := reservations[k.value];
      var loaded := LoadItems(row.id, itemsFault);
      if loaded.Err? {
        err := Some(E(Internal, LoadItemsMessage, Some(loaded.error)));
        return;
      }
      found := new Reservation(row.columns, loaded.value, row.createdAt);
      found.id := row.id;
      found.status := row.status;
      found.updatedAt := row.updatedAt;
      err := None;
    }

    /**
     * `Update`: rewrites status and updated_at of the rows with the reservation's id and
     * nothing else. No record is written, and an id that matches nothing is no error.
     */
    method Update(reservation: Reservation, fault: Option<Error>) returns (err: Option<Error>)
      requires Valid()
      modifies this
      ensures Valid()
      ensures err == fault
      ensures fault.Some? ==> unchanged(this)
      ensures items == old(items) && keys == old(keys)
      ensures reservations
           == if fault.Some? then old(reservations)
              else SetStatus(old(reservations), reservation.id, reservation.status, reservation.updatedAt)
    {
      if fault.Some? {
        return fault;
      }
      SetStatusFrame(reservations, reservation.id, reservation.status, reservation.updatedAt);
      SetStatusKeepsJoin(reservations, keys, reservation.id, reservation.status, reservation.updatedAt);
      reservations := SetStatus(reservations, reservation.id, reservation.status, reservation.updatedAt);
      err := None;
    }
  }
}
