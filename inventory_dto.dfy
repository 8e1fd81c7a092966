/** Requests and the response of the inventory service's use cases. */
module InventoryDto {
  import opened Env

  datatype ReserveItemRequest = ReserveItemRequest(productId: string, quantity: int)

  datatype ReserveInventoryRequest = ReserveInventoryRequest(
    idempotencyKey: string, orderId: string, items: seq<ReserveItemRequest>)

  datatype ReleaseInventoryRequest = ReleaseInventoryRequest(idempotencyKey: string, orderId: string)

  /** What both use cases answer with; the items are not part of it. */
  datatype ReservationResponse = ReservationResponse(
    id: string, orderId: string, status: string, createdAt: Time, updatedAt: Time)
}
