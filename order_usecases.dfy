/** The order service's command handlers: create an order and cancel it. */
module OrderUseCases {
  import opened Wrappers
  import opened Env
  import opened Errors
  import opened Sql
  import opened Tables
  import opened Idempotency
  import opened OrderEntity
  import opened OrderStore
  import opened OrderDto
  import ErrorMapper

  /** `toDTO`: id, customer, status text, total and creation time of the order. */
  function ToResponse(s: OrderState): (r: OrderResponse)
    ensures r.id == s.id && r.customerId == s.customerId && r.status == StatusName(s.status)
    ensures r.totalAmount == s.totalAmount && r.createdAt == s.createdAt
  {
    OrderResponse(s.id, s.customerId, StatusName(s.status), s.totalAmount, s.createdAt)
  }

  /**
   * The response shows neither items nor updatedAt, so a replay answered from the row
   * equals the response of the original call, and a status change shows only in `status`.
   */
  lemma ResponseIgnoresItemsAndUpdate(s: OrderState, now: Time)
    ensures ToResponse(FromRow(RowOf(s))) == ToResponse(s)
    ensures ToResponse(AfterCancel(s, now)) == ToResponse(s).(status := "CANCELLED")
  {
  }

  /** The domain items built from the request lines. */
  function RequestedItems(lines: seq<OrderItemRequest>): (items: seq<OrderItem>)
    ensures |items| == |lines|
    ensures forall i :: 0 <= i < |lines| ==>
      items[i].productId == lines[i].productId && items[i].quantity == lines[i].quantity
      && items[i].price == lines[i].price
  {
    seq(|lines|, i requires 0 <= i < |lines| => OrderItem(lines[i].productId, lines[i].quantity, lines[i].price))
  }

  /** The item-conversion loop: one domain item per request line, same product, quantity and price, same order. */
  method ConvertItems(lines: seq<OrderItemRequest>) returns (items: seq<OrderItem>)
    ensures items == RequestedItems(lines)
  {
    var buffer := new OrderItem[|lines|];
    for i := 0 to |lines|
      invariant forall j :: 0 <= j < i ==> buffer[j] == RequestedItems(lines)[j]
    {
      buffer[i] := OrderItem(lines[i].productId, lines[i].quantity, lines[i].price);
    }
    items := buffer[..];
  }

  predicate CheckFailed(checkFault: Option<Error>)
  {
    checkFault.Some? && checkFault.value != ErrNoRows
  }

  /** The error a cancel reports when the order cannot be loaded. */
  function CancelLookupFailure(e: Error): Error
  {
    Wrapped(OrderNotFoundMessage, Some(e))
  }

  /** The error a cancel reports when writing the cancelled order fails. */
  function CancelUpdateFailure(e: Error): Error
  {
    Wrapped("failed to cancel order", Some(e))
  }

  /**
   * The wrapping a cancel adds keeps the repository's classification: the lookup failure
   * reaches the client as the repository's error would, and a failed update as a bare
   * internal error.
   */
  lemma CancelFailureStatus(e: Error)
    ensures ErrorMapper.ToStatus(Some(CancelLookupFailure(e))) == ErrorMapper.ToStatus(Some(e))
    ensures ErrorMapper.ToStatus(Some(CancelUpdateFailure(E(Internal, UpdateMessage, Some(e)))))
         == Some(ErrorMapper.Status(ErrorMapper.Internal, ErrorMapper.GenericMessage))
  {
    WrappingKeepsDomain(OrderNotFoundMessage, e);
    WrappingKeepsDomain("failed to cancel order", E(Internal, UpdateMessage, Some(e)));
  }

  /** Cancelling an order that does not exist reaches the client as NotFound "order not found". */
  lemma CancelMissingOrderStatus()
    ensures ErrorMapper.ToStatus(Some(CancelLookupFailure(RowFailure(ErrNoRows))))
         == Some(ErrorMapper.Status(ErrorMapper.NotFound, OrderNotFoundMessage))
  {
    assert Chain(ErrNoRows) == [ErrNoRows];
    var d := RowFailure(ErrNoRows);
    assert d == E(NotFound, OrderNotFoundMessage, Some(ErrNoRows));
    CancelFailureStatus(d);
    ErrorMapper.ToStatusTable(NotFound, OrderNotFoundMessage, Some(ErrNoRows));
  }

  class CreateOrder {
    const repo: OrderRepository

    constructor (repo: OrderRepository)
      ensures this.repo == repo
    {
      this.repo := repo;
    }

    /**
     * `CreateOrderUseCase.Execute`: a failed key check is returned and nothing is written;
     * a hit answers the stored order and creates nothing; a miss builds a CREATED order
     * from the request, items in order, persists it and answers it with the id the store
     * assigned, or returns the store's error with no row written.
     */
    method Execute(req: CreateOrderRequest, now: Time, freshId: Uuid, checkFault: Option<Error>, writeFault: WriteFault)
      returns (r: Result<OrderResponse, Error>)
      requires repo.Valid()
      requires freshId !in Ids(repo.orders)
      modifies repo
      ensures repo.Valid()
      ensures CheckFailed(checkFault) ==>
        r == Err(E(Internal, QueryOrderMessage, checkFault)) && unchanged(repo)
      ensures checkFault.None? && old(Lookup(repo.orders, repo.keys, req.idempotencyKey, now)).Some? ==>
        r == Ok(ToResponse(FromRow(old(Lookup(repo.orders, repo.keys, req.idempotencyKey, now)).value)))
        && unchanged(repo)
      ensures !CheckFailed(checkFault) && (checkFault.Some? || old(Lookup(repo.orders, repo.keys, req.idempotencyKey, now)).None?) ==>
        var created := OrderState(freshId, req.customerId, RequestedItems(req.items), req.totalAmount, Created, now, now);
        && (Reached(writeFault, |req.items|) ==>
              r == Err(CreateFailure(writeFault.step, writeFault.cause)) && unchanged(repo))
        && (!Reached(writeFault, |req.items|) ==>
              r == Ok(ToResponse(created))
              && repo.orders == old(repo.orders) + [RowOf(created)]
              && repo.items == old(repo.items) + ItemRows(freshId, created.items)
              && repo.keys == old(repo.keys) + [Issue(req.idempotencyKey, freshId, Operation, created, now)])
    {
      var existing, err := repo.CheckIdempotency(req.idempotencyKey, now, checkFault);
      if err.Some? {
        return Err(err.value);
      }
      if existing != null {
        return Ok(ToResponse(existing.State()));
      }
      var items := ConvertItems(req.items);
      var order := new Order(req.customerId, items, req.totalAmount, now);
      var created;
      created, err := repo.Create(order, req.idempotencyKey, freshId, now, writeFault);
      if err.Some? {
        return Err(err.value);
      }
      r := Ok(ToResponse(created.State()));
    }
  }

  class CancelOrder {
    const repo: OrderRepository

    constructor (repo: OrderRepository)
      ensures this.repo == repo
    {
      this.repo := repo;
    }

    /**
     * `CancelOrderUseCase.Execute`: a hit answers the order the key points at and writes
     * nothing; a failed key check is ignored and treated as a miss. Otherwise the order is
     * loaded, cancelled whatever its status, and written back by `Update`, which records no
     * key; a failure to load or to write is returned wrapped, with no write.
     */
    method Execute(orderId: string, key: string, now: Time, checkFault: Option<Error>,
                   rowFault: Option<Error>, itemsFault: ItemsFault, updateFault: Option<Error>)
      returns (r: Result<OrderResponse, Error>)
      requires repo.Valid()
      modifies repo
      ensures repo.Valid()
      ensures repo.items == old(repo.items) && repo.keys == old(repo.keys)
      ensures checkFault.None? && old(Lookup(repo.orders, repo.keys, key, now)).Some? ==>
        r == Ok(ToResponse(FromRow(old(Lookup(repo.orders, repo.keys, key, now)).value))) && unchanged(repo)
      ensures checkFault.Some? || old(Lookup(repo.orders, repo.keys, key, now)).None? ==>
        && (rowFault.Some? ==> r == Err(CancelLookupFailure(RowFailure(rowFault.value))) && unchanged(repo))
        && (rowFault.None? && orderId !in old(Ids(repo.orders)) ==>
              r == Err(CancelLookupFailure(RowFailure(ErrNoRows))) && unchanged(repo))
        && (rowFault.None? && orderId in old(Ids(repo.orders)) ==>
              var row := old(repo.orders)[IndexOfId(old(repo.orders), orderId).value];
              var stored := ItemsOf(old(repo.items), orderId);
              var loads := itemsFault.NoItemsFault? || (itemsFault.ScanFails? && itemsFault.row >= |stored|);
              && (!loads ==> r == Err(CancelLookupFailure(ItemsFailure(itemsFault))) && unchanged(repo))
              && (loads && updateFault.Some? ==>
                    r == Err(CancelUpdateFailure(E(Internal, UpdateMessage, updateFault))) && unchanged(repo))
              && (loads && updateFault.None? ==>
                    r == Ok(ToResponse(AfterCancel(FromRow(row).(items := stored), now)))
                    && repo.orders == SetStatus(old(repo.orders), orderId, Cancelled, now)))
    {
      var existing, err := repo.CheckIdempotency(key, now, checkFault);
      if err.None? && existing != null {
        return Ok(ToResponse(existing.State()));
      }
      var order;
      order, err := repo.FindByID(orderId, rowFault, itemsFault);
      if err.Some? {
        return Err(CancelLookupFailure(err.value));
      }
      order.Cancel(now);
      err := repo.Update(order, updateFault);
      if err.Some? {
        return Err(CancelUpdateFailure(err.value));
      }
      r := Ok(ToResponse(order.State()));
    }
  }

  /**
   * The same cancel sent twice with a key no create ever stored: `Update` records no key,
   * so the second call runs again, answers CANCELLED again and restamps the row with the
   * second call's time.
   */
  method CancelTwice(uc: CancelOrder, orderId: string, key: string, t1: Time, t2: Time)
    returns (first: Result<OrderResponse, Error>, second: Result<OrderResponse, Error>)
    requires uc.repo.Valid()
    requires orderId in Ids(uc.repo.orders)
    requires forall r :: r in uc.repo.keys ==> r.key != key
    modifies uc.repo
    ensures first.Ok? && second.Ok? && first.value.status == second.value.status == "CANCELLED"
    ensures orderId in Ids(uc.repo.orders)
    ensures var k := IndexOfId(uc.repo.orders, orderId).value;
      uc.repo.orders[k].status == Cancelled && uc.repo.orders[k].updatedAt == t2
  {
    LookupExpired(uc.repo.orders, uc.repo.keys, key, t1);
    first := uc.Execute(orderId, key, t1, None, None, NoItemsFault, None);
    SetStatusFrame(old(uc.repo.orders), orderId, Cancelled, t1);
    LookupExpired(uc.repo.orders, uc.repo.keys, key, t2);
    var before := uc.repo.orders;
    second := uc.Execute(orderId, key, t2, None, None, NoItemsFault, None);
    SetStatusFrame(before, orderId, Cancelled, t2);
    IndexOfIdAfterSetStatus(before, orderId, Cancelled, t2, orderId);
  }

  /**
   * The same order request sent twice, the second time before the key expires: the
   * second call answers the order the first created, with the store's id, and writes
   * nothing more.
   */
  method CreateTwice(uc: CreateOrder, req: CreateOrderRequest, t1: Time, t2: Time, id1: Uuid, id2: Uuid)
    returns (first: Result<OrderResponse, Error>, second: Result<OrderResponse, Error>)
    requires uc.repo.Valid()
    requires id1 !in Ids(uc.repo.orders) && id2 != id1 && id2 !in Ids(uc.repo.orders)
    requires Lookup(uc.repo.orders, uc.repo.keys, req.idempotencyKey, t1).None?
    requires t1 <= t2 < t1 + TTL
    modifies uc.repo
    ensures first.Ok? && second == first && first.value.id == id1 && first.value.status == "CREATED"
    ensures |uc.repo.orders| == |old(uc.repo.orders)| + 1
  {
    first := uc.Execute(req, t1, id1, None, NoWriteFault);
    var created := OrderState(id1, req.customerId, RequestedItems(req.items), req.totalAmount, Created, t1, t1);
    var record := Issue(req.idempotencyKey, id1, Operation, created, t1);
    MissPersists(old(uc.repo.orders), old(uc.repo.keys), req.idempotencyKey, t1, t2);
    LookupAfterCreate(old(uc.repo.orders), old(uc.repo.keys), RowOf(created), record, t2);
    ResponseIgnoresItemsAndUpdate(created, t2);
    second := uc.Execute(req, t2, id2, None, NoWriteFault);
  }
}
