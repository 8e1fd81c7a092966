/** The order service's order aggregate and its status machine. */
module OrderEntity {
  import opened Env

  datatype OrderStatus = Created | Confirmed | Cancelled

  /** The text stored in the `status` column. */
  function StatusName(s: OrderStatus): string
  {
    match s
    case Created => "CREATED"
    case Confirmed => "CONFIRMED"
    case Cancelled => "CANCELLED"
  }

  lemma StatusNamesDistinct(a: OrderStatus, b: OrderStatus)
    ensures StatusName(a) == StatusName(b) <==> a == b
  {
  }

  /** Money is carried through unchanged and never computed on; an integer stands for it. */
  type Money = int

  datatype OrderItem = OrderItem(productId: string, quantity: int, price: Money)

  /** All fields of an order as one value; also what is stored as the JSON snapshot. */
  datatype OrderState = OrderState(
    id: string, customerId: string, items: seq<OrderItem>, totalAmount: Money, status: OrderStatus,
    createdAt: Time, updatedAt: Time)

  /** Two states describe the same order: only status and updatedAt may differ. */
  predicate SameOrder(a: OrderState, b: OrderState)
  {
    a.id == b.id && a.customerId == b.customerId && a.items == b.items
    && a.totalAmount == b.totalAmount && a.createdAt == b.createdAt
  }

  /** The state `Cancel` leaves behind, from every status, a confirmed one included. */
  function AfterCancel(s: OrderState, now: Time): (r: OrderState)
    ensures r.status == Cancelled && r.updatedAt == now
    ensures SameOrder(r, s)
  {
    s.(status := Cancelled, updatedAt := now)
  }

  /** The state `Confirm` leaves behind, from every status, a cancelled one included. */
  function AfterConfirm(s: OrderState, now: Time): (r: OrderState)
    ensures r.status == Confirmed && r.updatedAt == now
    ensures SameOrder(r, s)
  {
    s.(status := Confirmed, updatedAt := now)
  }

  lemma CancelIdempotent(s: OrderState, t1: Time, t2: Time)
    ensures AfterCancel(AfterCancel(s, t1), t2) == AfterCancel(s, t2)
  {
  }

  /** The last transition wins: there are no guards between the statuses. */
  lemma LastTransitionWins(s: OrderState, t1: Time, t2: Time)
    ensures AfterConfirm(AfterCancel(s, t1), t2) == AfterConfirm(s, t2)
    ensures AfterCancel(AfterConfirm(s, t1), t2) == AfterCancel(s, t2)
  {
  }

  class Order {
    var id: string
    var customerId: string
    var items: seq<OrderItem>
    var totalAmount: Money
    var status: OrderStatus
    var createdAt: Time
    var updatedAt: Time

    function State(): OrderState
      reads this
    {
      OrderState(id, customerId, items, totalAmount, status, createdAt, updatedAt)
    }

    /**
     * `NewOrder`: customer, items and total exactly as given and unchecked, status CREATED,
     * both timestamps `now`, and no id yet. It cannot fail.
     */
    constructor (customerId: string, items: seq<OrderItem>, totalAmount: Money, now: Time)
      ensures State() == OrderState("", customerId, items, totalAmount, Created, now, now)
    {
      this.id := "";
      this.customerId := customerId;
      this.items := items;
      this.totalAmount := totalAmount;
      this.status := Created;
      this.createdAt := now;
      this.updatedAt := now;
    }

    method Cancel(now: Time)
      modifies this
      ensures State() == AfterCancel(old(State()), now)
    {
      status := Cancelled;
      updatedAt := now;
    }

    method Confirm(now: Time)
      modifies this
      ensures State() == AfterConfirm(old(State()), now)
    {
      status := Confirmed;
      updatedAt := now;
    }
  }
}
