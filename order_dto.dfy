/** Requests and the response of the order service's use cases. */
module OrderDto {
  import opened Env
  import opened OrderEntity

  datatype OrderItemRequest = OrderItemRequest(productId: string, quantity: int, price: Money)

  datatype CreateOrderRequest = CreateOrderRequest(
    idempotencyKey: string, customerId: string, items: seq<OrderItemRequest>, totalAmount: Money)

  /** What both use cases answer with: no items and no updatedAt. */
  datatype OrderResponse = OrderResponse(
    id: string, customerId: string, status: string, totalAmount: Money, createdAt: Time)
}
