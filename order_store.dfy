/**
 * The order service's order repository over in-memory tables: orders, order items and
 * order idempotency records.
 */
module OrderStore {
  import opened Wrappers
  import opened Env
  import opened Errors
  import opened Sql
  import opened Tables
  import opened Idempotency
  import opened OrderEntity
  import ErrorMapper

  /** The own columns of a row of `orders`. */
  datatype OrderColumns = OrderColumns(customerId: string, totalAmount: Money)

  type OrderRow = Row<OrderColumns, OrderStatus>

  /** The operation name written with every record. */
  const Operation: string := "CREATE"

  const QueryOrderMessage: string := "query order"
  const OrderNotFoundMessage: string := "order not found"
  const ItemNotFoundMessage: string := "order item not found"
  const QueryItemMessage: string := "query order item"
  const ScanItemMessage: string := "scan order item"
  const UpdateMessage: string := "failed to update order"

  /** The error `Create` returns when the statement `step` fails with `cause`: always internal. */
  function CreateFailure(step: WriteStep, cause: Error): Error
  {
    match step
    case Begin => E(Internal, "failed to begin transaction", Some(cause))
    case InsertRow => E(Internal, "failed to insert order", Some(cause))
    case InsertItem(_) => E(Internal, "failed to insert order item", Some(cause))
    case InsertKey => E(Internal, "failed to insert idempotency key", Some(cause))
    case Commit => E(Internal, "failed to commit transaction", Some(cause))
  }

  /** Unlike the other participants, every `Create` failure, the commit's included, is a bare internal error to clients. */
  lemma CreateFailureStatus(step: WriteStep, cause: Error)
    ensures ErrorMapper.ToStatus(Some(CreateFailure(step, cause)))
         == Some(ErrorMapper.Status(ErrorMapper.Internal, ErrorMapper.GenericMessage))
    ensures Unwrap(CreateFailure(step, cause)) == Some(cause)
  {
  }

  /** The row an order is inserted as. */
  function RowOf(s: OrderState): OrderRow
  {
    Row(s.id, OrderColumns(s.customerId, s.totalAmount), s.status, s.createdAt, s.updatedAt)
  }

  /** An order read back from its row: the row's columns and no items. */
  function FromRow(r: OrderRow): (s: OrderState)
    ensures RowOf(s) == r && s.items == []
  {
    OrderState(r.id, r.columns.customerId, [], r.columns.totalAmount, r.status, r.createdAt, r.updatedAt)
  }

  /** The error `FindByID` returns when the order row's query fails with `e`. */
  function RowFailure(e: Error): (r: Error)
    ensures r.Domain? && Unwrap(r) == Some(e)
    ensures r.code == (if Is(e, ErrNoRows) then NotFound else Internal)
    ensures Text(r) == (if Is(e, ErrNoRows) then OrderNotFoundMessage else QueryOrderMessage)
    ensures ErrorMapper.ToStatus(Some(r)) ==
              Some(if Is(e, ErrNoRows) then ErrorMapper.Status(ErrorMapper.GrpcCode.NotFound, OrderNotFoundMessage)
                   else ErrorMapper.Status(ErrorMapper.GrpcCode.Internal, ErrorMapper.GenericMessage))
  {
    if Is(e, ErrNoRows) then E(NotFound, OrderNotFoundMessage, Some(e)) else E(Internal, QueryOrderMessage, Some(e))
  }

  /** The error `FindByID` returns when the item query fails with `e`. */
  function ItemQueryFailure(e: Error): (r: Error)
    ensures r.Domain? && Unwrap(r) == Some(e)
    ensures r.code == (if Is(e, ErrNoRows) then NotFound else Internal)
    ensures Text(r) == (if Is(e, ErrNoRows) then ItemNotFoundMessage else QueryItemMessage)
    ensures ErrorMapper.ToStatus(Some(r)) ==
              Some(if Is(e, ErrNoRows) then ErrorMapper.Status(ErrorMapper.GrpcCode.NotFound, ItemNotFoundMessage)
                   else ErrorMapper.Status(ErrorMapper.GrpcCode.Internal, ErrorMapper.GenericMessage))
  {
    if Is(e, ErrNoRows) then E(NotFound, ItemNotFoundMessage, Some(e)) else E(Internal, QueryItemMessage, Some(e))
  }

  /** The error `FindByID` returns when loading the items of an existing order fails. */
  function ItemsFailure(f: ItemsFault): Error
    requires !f.NoItemsFault?
  {
    match f
    case QueryFails(c) => ItemQueryFailure(c)
    case ScanFails(_, c) => E(Internal, ScanItemMessage, Some(c))
    case IterationFails(c) => E(Internal, QueryItemMessage, Some(c))
  }

  class OrderRepository {
    var orders: seq<OrderRow>
    var items: seq<ItemRow<OrderItem>>
    var keys: seq<Record<OrderState>>

    /** Ids are unique, and every item and every record belongs to a stored order. */
    predicate Valid()
      reads this
    {
      IdsUnique(orders) && ItemsOwned(orders, items) && RecordsJoin(orders, keys)
    }

    constructor ()
      ensures Valid() && orders == [] && items == [] && keys == []
    {
      orders := [];
      items := [];
      keys := [];
    }

    /**
     * `Create`: assigns the fresh id to `order` in place once the transaction has begun,
     * inserts the order row, one item row per item in order and the `CREATE` record, and
     * commits, answering the same order object. All three tables change together or not
     * at all, and every failure is wrapped as internal.
     */
    method Create(order: Order, key: string, freshId: Uuid, now: Time, fault: WriteFault)
      returns (created: Order?, err: Option<Error>)
      requires Valid()
      requires freshId !in Ids(orders)
      modifies this, order
      ensures Valid()
      ensures order.State() == old(order.State()).(id := if FailsAt(fault, Begin) then old(order.id) else freshId)
      ensures err.None? <==> !Reached(fault, |old(order.items)|)
      ensures err.None? <==> created != null
      ensures created != null ==> created == order
      ensures err.Some? ==> err.value == CreateFailure(fault.step, fault.cause) && unchanged(this)
      ensures err.None? ==>
        orders == old(orders) + [RowOf(order.State())]
        && items == old(items) + ItemRows(freshId, order.items)
        && keys == old(keys) + [Issue(key, freshId, Operation, order.State(), now)]
    {
      created := null;
      if FailsAt(fault, Begin) {
        return null, Some(CreateFailure(Begin, fault.cause));
      }
      order.id := freshId;
      if FailsAt(fault, InsertRow) {
        return null, Some(CreateFailure(InsertRow, fault.cause));
      }
      var row := RowOf(order.State());
      var lines := order.items;
      var pending := items;
      var i := 0;
      while i < |lines|
        invariant 0 <= i <= |lines|
        invariant pending == items + ItemRows(freshId, lines[..i])
        invariant forall j :: 0 <= j < i ==> !FailsAt(fault, InsertItem(j))
        modifies {}
      {
        if FailsAt(fault, InsertItem(i)) {
          return null, Some(CreateFailure(InsertItem(i), fault.cause));
        }
        ItemRowsPrefix(freshId, lines, i);
        pending := pending + [ItemRow(freshId, lines[i])];
        i := i + 1;
      }
      assert lines[..i] == lines;
      if FailsAt(fault, InsertKey) {
        return null, Some(CreateFailure(InsertKey, fault.cause));
      }
      var record := Issue(key, freshId, Operation, order.State(), now);
      if FailsAt(fault, Commit) {
        return null, Some(CreateFailure(Commit, fault.cause));
      }
      ItemsOwnedAppend(orders, items, row, lines);
      IdsAppend(orders, row);
      orders := orders + [row];
      items := pending;
      keys := keys + [record];
      created, err := order, None;
    }

    /**
     * `CheckIdempotency`: the order of the first live record for `key`, read from its
     * current row and without items. A query that fails with `fault` reports the no-rows
     * sentinel as a miss and anything else as an internal error.
     */
    method CheckIdempotency(key: string, now: Time, fault: Option<Error>)
      returns (existing: Order?, err: Option<Error>)
      ensures fault.Some? && fault.value != ErrNoRows ==>
        existing == null && err == Some(E(Internal, QueryOrderMessage, fault))
      ensures fault == Some(ErrNoRows) ==> existing == null && err.None?
      ensures fault.None? ==> err.None? && (existing == null <==> Lookup(orders, keys, key, now).None?)
      ensures existing != null ==>
        fresh(existing) && existing.State() == FromRow(Lookup(orders, keys, key, now).value)
    {
      existing := null;
      err := None;
      if fault == Some(ErrNoRows) {
        return;
      }
      if fault.Some? {
        err := Some(E(Internal, QueryOrderMessage, fault));
        return;
      }
      match Lookup(orders, keys, key, now)
      case None =>
      case Some(row) =>
        existing := NewFromRow(row, []);
    }

    /**
     * `FindByID`: the order row with that id and its items appended one by one in table
     * order. A missing row is NotFound; so is an item query failing with the no-rows
     * sentinel; every other failure is internal.
     */
    method FindByID(id: string, rowFault: Option<Error>, itemsFault: ItemsFault)
      returns (found: Order?, err: Option<Error>)
      ensures found == null <==> err.Some?
      ensures rowFault.Some? ==> err == Some(RowFailure(rowFault.value))
      ensures rowFault.None? && id !in Ids(orders) ==> err == Some(RowFailure(ErrNoRows))
      ensures rowFault.None? && id in Ids(orders) ==>
        var row := orders[IndexOfId(orders, id).value];
        var stored := ItemsOf(items, id);
        && (itemsFault.QueryFails? ==> err == Some(ItemQueryFailure(itemsFault.cause)))
        && (itemsFault.ScanFails? && itemsFault.row < |stored| ==>
              err == Some(E(Internal, ScanItemMessage, Some(itemsFault.cause))))
        && (itemsFault.IterationFails? ==> err == Some(E(Internal, QueryItemMessage, Some(itemsFault.cause))))
        && (itemsFault.NoItemsFault? || (itemsFault.ScanFails? && itemsFault.row >= |stored|) ==>
              err.None? && fresh(found) && found.State() == FromRow(row).(items := stored))
    {
      if rowFault.Some? {
        return null, Some(RowFailure(rowFault.value));
      }
      var k := IndexOfId(orders, id);
      if k.None? {
        return null, Some(RowFailure(ErrNoRows));
      }
      var order := NewFromRow(orders[k.value], []);
      if itemsFault.QueryFails? {
        return null, Some(ItemQueryFailure(itemsFault.cause));
      }
      var i := 0;
      while i < |items|
        invariant 0 <= i <= |items|
        invariant order.State() == FromRow(orders[k.value]).(items := ItemsOf(items[..i], id))
        invariant itemsFault.ScanFails? ==> itemsFault.row >= |order.items|
        modifies order
      {
        ItemsOfPrefix(items, i, id);
        if items[i].ownerId == id {
          if itemsFault.ScanFails? && itemsFault.row == |order.items| {
            ItemsOfAppend(items[..i + 1], items[i + 1..], id);
            assert items[..i + 1] + items[i + 1..] == items;
            return null, Some(E(Internal, ScanItemMessage, Some(itemsFault.cause)));
          }
          order.items := order.items + [items[i].item];
        }
        i := i + 1;
      }
      assert items[..i] == items;
      if itemsFault.IterationFails? {
        return null, Some(E(Internal, QueryItemMessage, Some(itemsFault.cause)));
      }
      found, err := order, None;
    }

    /**
     * `Update`: rewrites status and updated_at of the rows with the order's id and nothing
     * else; no record is written, an id that matches nothing is no error, and a failure is
     * wrapped as internal.
     */
    method Update(order: Order, fault: Option<Error>) returns (err: Option<Error>)
      requires Valid()
      modifies this
      ensures Valid()
      ensures err == if fault.Some? then Some(E(Internal, UpdateMessage, fault)) else None
      ensures fault.Some? ==> unchanged(this)
      ensures items == old(items) && keys == old(keys)
      ensures orders == if fault.Some? then old(orders) else SetStatus(old(orders), order.id, order.status, order.updatedAt)
    {
      if fault.Some? {
        return Some(E(Internal, UpdateMessage, fault));
      }
      SetStatusFrame(orders, order.id, order.status, order.updatedAt);
      SetStatusKeepsJoin(orders, keys, order.id, order.status, order.updatedAt);
      orders := SetStatus(orders, order.id, order.status, order.updatedAt);
      err := None;
    }
  }

  /** A fresh order object holding a row's columns and the given items. */
  method NewFromRow(row: OrderRow, lines: seq<OrderItem>) returns (o: Order)
    ensures fresh(o) && o.State() == FromRow(row).(items := lines)
  {
    o := new Order(row.columns.customerId, lines, row.columns.totalAmount, row.createdAt);
    o.id := row.id;
    o.status := row.status;
    o.updatedAt := row.updatedAt;
  }
}
