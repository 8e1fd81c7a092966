/** Requests and the response of the payment service's use cases. */
module PaymentDto {
  import opened Env
  import opened PaymentEntity

  datatype CreatePaymentRequest = CreatePaymentRequest(
    idempotencyKey: string, customerId: string, orderId: string, amount: Money)

  datatype RefundPaymentRequest = RefundPaymentRequest(idempotencyKey: string, paymentId: string)

  datatype PaymentResponse = PaymentResponse(
    id: string, orderId: string, customerId: string, amount: Money, status: string,
    createdAt: Time, updatedAt: Time)
}
