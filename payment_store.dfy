/**
 * The payment service's payment repository over in-memory tables: payments and payment
 * idempotency records. There is no item table.
 */
module PaymentStore {
  import opened Wrappers
  import opened Env
  import opened Errors
  import opened Sql
  import opened Tables
  import opened Idempotency
  import opened PaymentEntity

  /** The own columns of a row of `payments`. */
  datatype PaymentColumns = PaymentColumns(customerId: string, orderId: string, amount: Money)

  type PaymentRow = Row<PaymentColumns, PaymentStatus>

  /** The operation name written with every record. */
  const Operation: string := "CREATE"

  /** The row a payment is inserted as. */
  function RowOf(p: Payment): PaymentRow
  {
    Row(p.id, PaymentColumns(p.customerId, p.orderId, p.amount), p.status, p.createdAt, p.updatedAt)
  }

  /** A payment read back from its row: every field is stored, so nothing is lost. */
  function FromRow(r: PaymentRow): (p: Payment)
    ensures RowOf(p) == r
  {
    Payment(r.id, r.columns.orderId, r.columns.customerId, r.columns.amount, r.status, r.createdAt, r.updatedAt)
  }

  lemma RowRoundTrip(p: Payment)
    ensures FromRow(RowOf(p)) == p
  {
  }

  class PaymentRepository {
    var payments: seq<PaymentRow>
    var keys: seq<Record<Payment>>

    /** Ids are unique and every record belongs to a stored payment. */
    predicate Valid()
      reads this
    {
      IdsUnique(payments) && RecordsJoin(payments, keys)
    }

    constructor ()
      ensures Valid() && payments == [] && keys == []
    {
      payments := [];
      keys := [];
    }

    /**
     * `Create`: replaces the id the factory drew with a fresh one once the transaction has
     * begun, inserts the payment row and the `CREATE` record, and commits. Both tables
     * change together or not at all, and every failure is returned unwrapped. The payment
     * with its new id is handed back as `withId`.
     */
    method Create(payment: Payment, key: string, freshId: Uuid, now: Time, fault: WriteFault)
      returns (withId: Payment, err: Option<Error>)
      requires Valid()
      requires freshId !in Ids(payments)
      modifies this
      ensures Valid()
      ensures withId == if FailsAt(fault, Begin) then payment else payment.(id := freshId)
      ensures err.None? <==> !Reached(fault, 0)
      ensures err.Some? ==> err.value == fault.cause && unchanged(this)
      ensures err.None? ==>
        payments == old(payments) + [RowOf(withId)]
        && keys == old(keys) + [Issue(key, freshId, Operation, withId, now)]
    {
      withId := payment;
      if FailsAt(fault, Begin) {
        return withId, Some(fault.cause);
      }
      withId := withId.(id := freshId);
      if FailsAt(fault, InsertRow) {
        return withId, Some(fault.cause);
      }
      var row := RowOf(withId);
      if FailsAt(fault, InsertKey) {
        return withId, Some(fault.cause);
      }
      var record := Issue(key, freshId, Operation, withId, now);
      if FailsAt(fault, Commit) {
        return withId, Some(fault.cause);
      }
      IdsAppend(payments, row);
      payments := payments + [row];
      keys := keys + [record];
      err := None;
    }

    /**
     * `CheckIdempotency`: the payment of the first live record for `key`, read from its
     * current row. A query that fails with `fault` reports the no-rows sentinel as a miss
     * and returns anything else unwrapped.
     */
    method CheckIdempotency(key: string, now: Time, fault: Option<Error>)
      returns (existing: Option<Payment>, err: Option<Error>)
      ensures fault.Some? && fault.value != ErrNoRows ==> existing.None? && err == fault
      ensures fault == Some(ErrNoRows) ==> existing.None? && err.None?
      ensures fault.None? ==>
        err.None?
        && existing == match Lookup(payments, keys, key, now) case None => None case Some(row) => Some(FromRow(row))
    {
      if fault == Some(ErrNoRows) {
        return None, None;
      }
      if fault.Some? {
        return None, fault;
      }
      match Lookup(payments, keys, key, now)
      case None =>
        existing, err := None, None;
      case Some(row) =>
        existing, err := Some(FromRow(row)), None;
    }
  }
}
