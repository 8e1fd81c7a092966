/** The payment service's payment record. The entity defines no transition methods. */
module PaymentEntity {
  import opened Env

  datatype PaymentStatus = Pending | Processed | Failed | Refunded

  /** The text stored in the `status` column. */
  function StatusName(s: PaymentStatus): string
  {
    match s
    case Pending => "PENDING"
    case Processed => "PROCESSED"
    case Failed => "FAILED"
    case Refunded => "REFUNDED"
  }

  lemma StatusNamesDistinct(a: PaymentStatus, b: PaymentStatus)
    ensures StatusName(a) == StatusName(b) <==> a == b
  {
  }

  /** Money is carried through unchanged and never computed on; an integer stands for it. */
  type Money = int

  datatype Payment = Payment(
    id: string, orderId: string, customerId: string, amount: Money, status: PaymentStatus,
    createdAt: Time, updatedAt: Time)

  /**
   * `NewPayment`: order, customer and amount as given and unchecked, status PENDING, both
   * timestamps `now`, and, unlike orders and reservations, an id drawn at construction.
   */
  function NewPayment(orderId: string, customerId: string, amount: Money, freshId: Uuid, now: Time): (p: Payment)
    ensures p.id == freshId && p.id != ""
    ensures p.orderId == orderId && p.customerId == customerId && p.amount == amount
    ensures p.status == Pending && p.createdAt == now && p.updatedAt == now
  {
    Payment(freshId, orderId, customerId, amount, Pending, now, now)
  }
}
