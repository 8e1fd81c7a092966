/** The payment service's command handlers: take a payment and refund it. */
module PaymentUseCases {
  import opened Wrappers
  import opened Env
  import opened Errors
  import opened Sql
  import opened Tables
  import opened Idempotency
  import opened PaymentEntity
  import opened PaymentStore
  import opened PaymentDto

  /** The process handler's `toDto`: all seven fields of the payment. */
  function ToResponse(p: Payment): (r: PaymentResponse)
    ensures r.id == p.id && r.orderId == p.orderId && r.customerId == p.customerId && r.amount == p.amount
    ensures r.status == StatusName(p.status) && r.createdAt == p.createdAt && r.updatedAt == p.updatedAt
  {
    PaymentResponse(p.id, p.orderId, p.customerId, p.amount, StatusName(p.status), p.createdAt, p.updatedAt)
  }

  /** The refund handler's `toDto`: only id and status; every other field is left at its zero value. */
  function ToRefundResponse(p: Payment): (r: PaymentResponse)
    ensures r.id == p.id && r.status == StatusName(p.status)
    ensures r.orderId == "" && r.customerId == "" && r.amount == 0 && r.createdAt == 0 && r.updatedAt == 0
  {
    PaymentResponse(p.id, "", "", 0, StatusName(p.status), 0, 0)
  }

  /** The two projections agree on id and status and on nothing else they need to. */
  lemma RefundResponseIsTruncated(p: Payment)
    ensures ToRefundResponse(p) == ToResponse(p).(orderId := "", customerId := "", amount := 0, createdAt := 0, updatedAt := 0)
  {
  }

  predicate CheckFailed(checkFault: Option<Error>)
  {
    checkFault.Some? && checkFault.value != ErrNoRows
  }

  const PaymentNotFoundMessage: string := "payment not found"

  class ProcessPayment {
    const repo: PaymentRepository

    constructor (repo: PaymentRepository)
      ensures this.repo == repo
    {
      this.repo := repo;
    }

    /**
     * `ProcessPaymentUseCase.Execute`: a failed key check is returned unwrapped; a hit
     * answers the stored payment and creates nothing; a miss builds a PENDING payment with
     * the factory's id `factoryId`, persists it, and answers it carrying the id the store
     * withId, or returns the store's error with no row written.
     */
    method Execute(req: CreatePaymentRequest, now: Time, factoryId: Uuid, freshId: Uuid,
                   checkFault: Option<Error>, writeFault: WriteFault)
      returns (r: Result<PaymentResponse, Error>)
      requires repo.Valid()
      requires freshId !in Ids(repo.payments)
      modifies repo
      ensures repo.Valid()
      ensures CheckFailed(checkFault) ==> r == Err(checkFault.value) && unchanged(repo)
      ensures checkFault.None? && old(Lookup(repo.payments, repo.keys, req.idempotencyKey, now)).Some? ==>
        r == Ok(ToResponse(FromRow(old(Lookup(repo.payments, repo.keys, req.idempotencyKey, now)).value)))
        && unchanged(repo)
      ensures !CheckFailed(checkFault) && (checkFault.Some? || old(Lookup(repo.payments, repo.keys, req.idempotencyKey, now)).None?) ==>
        var created := Payment(freshId, req.orderId, req.customerId, req.amount, Pending, now, now);
        && (Reached(writeFault, 0) ==> r == Err(writeFault.cause) && unchanged(repo))
        && (!Reached(writeFault, 0) ==>
              r == Ok(ToResponse(created))
              && repo.payments == old(repo.payments) + [RowOf(created)]
              && repo.keys == old(repo.keys) + [Issue(req.idempotencyKey, freshId, Operation, created, now)])
    {
      var existing, err := repo.CheckIdempotency(req.idempotencyKey, now, checkFault);
      if err.Some? {
        return Err(err.value);
      }
      if existing.Some? {
        return Ok(ToResponse(existing.value));
      }
      var payment := NewPayment(req.orderId, req.customerId, req.amount, factoryId, now);
      var withId;
      withId, err := repo.Create(payment, req.idempotencyKey, freshId, now, writeFault);
      if err.Some? {
        return Err(err.value);
      }
      r := Ok(ToResponse(withId));
    }
  }

  class RefundPayment {
    const repo: PaymentRepository

    constructor (repo: PaymentRepository)
      ensures this.repo == repo
    {
      this.repo := repo;
    }

    /**
     * `RefundPaymentUseCase.Execute`. The payment lookup `getById`, the transition
     * `refund` and the write `update` are not defined by the payment service and are taken
     * as parameters; `written` is the payment handed to `update`, if any. A failed key
     * check is returned; a hit answers the stored payment and does nothing else; a failed
     * lookup is wrapped as "payment not found"; an update failure is returned as is.
     */
    method Execute(req: RefundPaymentRequest, now: Time, checkFault: Option<Error>,
                   getById: string -> Result<Payment, Error>, refund: (Payment, Time) -> Payment,
                   update: Payment -> Option<Error>)
      returns (r: Result<PaymentResponse, Error>, written: Option<Payment>)
      ensures CheckFailed(checkFault) ==> r == Err(checkFault.value) && written.None?
      ensures checkFault.None? && Lookup(repo.payments, repo.keys, req.idempotencyKey, now).Some? ==>
        r == Ok(ToRefundResponse(FromRow(Lookup(repo.payments, repo.keys, req.idempotencyKey, now).value)))
        && written.None?
      ensures !CheckFailed(checkFault) && (checkFault.Some? || Lookup(repo.payments, repo.keys, req.idempotencyKey, now).None?) ==>
        && (getById(req.paymentId).Err? ==>
              r == Err(Wrapped(PaymentNotFoundMessage, Some(getById(req.paymentId).error))) && written.None?)
        && (getById(req.paymentId).Ok? ==>
              var refunded := refund(getById(req.paymentId).value, now);
              && written == Some(refunded)
              && r == if update(refunded).Some? then Err(update(refunded).value) else Ok(ToRefundResponse(refunded)))
    {
      written := None;
      var existing, err := repo.CheckIdempotency(req.idempotencyKey, now, checkFault);
      if err.Some? {
        return Err(err.value), None;
      }
      if existing.Some? {
        return Ok(ToRefundResponse(existing.value)), None;
      }
      var found := getById(req.paymentId);
      if found.Err? {
        return Err(Wrapped(PaymentNotFoundMessage, Some(found.error))), None;
      }
      var payment := refund(found.value, now);
      written := Some(payment);
      err := update(payment);
      if err.Some? {
        return Err(err.value), written;
      }
      r := Ok(ToRefundResponse(payment));
    }
  }

  /**
   * The same payment request sent twice, the second time before the key expires: the
   * second call answers the payment the first created, with the store's id, and writes
   * nothing more.
   */
  method ProcessTwice(uc: ProcessPayment, req: CreatePaymentRequest, t1: Time, t2: Time,
                      factoryId: Uuid, id1: Uuid, id2: Uuid)
    returns (first: Result<PaymentResponse, Error>, second: Result<PaymentResponse, Error>)
    requires uc.repo.Valid()
    requires id1 !in Ids(uc.repo.payments) && id2 != id1 && id2 !in Ids(uc.repo.payments)
    requires Lookup(uc.repo.payments, uc.repo.keys, req.idempotencyKey, t1).None?
    requires t1 <= t2 < t1 + TTL
    modifies uc.repo
    ensures first.Ok? && second == first && first.value.id == id1 && first.value.status == "PENDING"
    ensures |uc.repo.payments| == |old(uc.repo.payments)| + 1
  {
    first := uc.Execute(req, t1, factoryId, id1, None, NoWriteFault);
    var created := Payment(id1, req.orderId, req.customerId, req.amount, Pending, t1, t1);
    var record := Issue(req.idempotencyKey, id1, Operation, created, t1);
    MissPersists(old(uc.repo.payments), old(uc.repo.keys), req.idempotencyKey, t1, t2);
    LookupAfterCreate(old(uc.repo.payments), old(uc.repo.keys), RowOf(created), record, t2);
    second := uc.Execute(req, t2, factoryId, id2, None, NoWriteFault);
  }
}
