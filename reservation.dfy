/** The inventory service's reservation aggregate and its status machine. */
module ReservationEntity {
  import opened Env

  datatype ReservationStatus = Reserved | Released | Confirmed

  /** The text stored in the `status` column. */
  function StatusName(s: ReservationStatus): string
  {
    match s
    case Reserved => "RESERVED"
    case Released => "RELEASED"
    case Confirmed => "CONFIRMED"
  }

  lemma StatusNamesDistinct(a: ReservationStatus, b: ReservationStatus)
    ensures StatusName(a) == StatusName(b) <==> a == b
  {
  }

  /** One line of a reservation: a product and how many of it. Quantities are not checked. */
  datatype ReservationItem = ReservationItem(productId: string, quantity: int)

  /** All fields of a reservation as one value; also what is stored as the JSON snapshot. */
  datatype ReservationState = ReservationState(
    id: string, orderId: string, items: seq<ReservationItem>, status: ReservationStatus,
    createdAt: Time, updatedAt: Time)

  /** Two states describe the same reservation: only status and updatedAt may differ. */
  predicate SameReservation(a: ReservationState, b: ReservationState)
  {
    a.id == b.id && a.orderId == b.orderId && a.items == b.items && a.createdAt == b.createdAt
  }

  /** The state `Release` leaves behind, whatever the status before. */
  function AfterRelease(s: ReservationState, now: Time): (r: ReservationState)
    ensures r.status == Released && r.updatedAt == now
    ensures SameReservation(r, s)
  {
    s.(status := Released, updatedAt := now)
  }

  /** The state `Confirm` leaves behind, whatever the status before, a released one included. */
  function AfterConfirm(s: ReservationState, now: Time): (r: ReservationState)
    ensures r.status == Confirmed && r.updatedAt == now
    ensures SameReservation(r, s)
  {
    s.(status := Confirmed, updatedAt := now)
  }

  /** Releasing twice is releasing once at the later time. */
  lemma ReleaseIdempotent(s: ReservationState, t1: Time, t2: Time)
    ensures AfterRelease(AfterRelease(s, t1), t2) == AfterRelease(s, t2)
  {
  }

  /** The last transition wins: there are no guards between the statuses. */
  lemma LastTransitionWins(s: ReservationState, t1: Time, t2: Time)
    ensures AfterConfirm(AfterRelease(s, t1), t2) == AfterConfirm(s, t2)
    ensures AfterRelease(AfterConfirm(s, t1), t2) == AfterRelease(s, t2)
  {
  }

  class Reservation {
    var id: string
    var orderId: string
    var items: seq<ReservationItem>
    var status: ReservationStatus
    var createdAt: Time
    var updatedAt: Time

    function State(): ReservationState
      reads this
    {
      ReservationState(id, orderId, items, status, createdAt, updatedAt)
    }

    /**
     * `NewReservation`: the order and the items exactly as given, status RESERVED, both
     * timestamps `now`, and no id yet (the store assigns it).
     */
    constructor (orderId: string, items: seq<ReservationItem>, now: Time)
      ensures State() == ReservationState("", orderId, items, Reserved, now, now)
    {
      this.id := "";
      this.orderId := orderId;
      this.items := items;
      this.status := Reserved;
      this.createdAt := now;
      this.updatedAt := now;
    }

    method Release(now: Time)
      modifies this
      ensures State() == AfterRelease(old(State()), now)
    {
      status := Released;
      updatedAt := now;
    }

    method Confirm(now: Time)
      modifies this
      ensures State() == AfterConfirm(old(State()), now)
    {
      status := Confirmed;
      updatedAt := now;
    }
  }
}
