/** The values of the configuration constants that the core reads. */
module Constants {

  /** How old a callback request may be, in milliseconds (five minutes). */
  const TIMESTAMP_TOLERANCE_MS: int := 5 * 60 * 1000

  const HTTP_OK: int := 200
  const HTTP_CREATED: int := 201
  const HTTP_BAD_REQUEST: int := 400
  const HTTP_UNAUTHORIZED: int := 401
  const HTTP_FORBIDDEN: int := 403
  const HTTP_NOT_FOUND: int := 404
  const HTTP_INTERNAL_SERVER_ERROR: int := 500

  const COMPANY_UPDATED: string := "company.updated"
  const COMPANY_DELETED: string := "company.deleted"
  const ORDER_CREATED: string := "order.created"
  const ORDER_UPDATED: string := "order.updated"
  const PRODUCT_CREATED: string := "product.created"
  const PRODUCT_UPDATED: string := "product.updated"
  const SUBSCRIPTION_CREATED: string := "subscription.created"
  const SUBSCRIPTION_UPDATED: string := "subscription.updated"
  const SUBSCRIPTION_CANCELLED: string := "subscription.cancelled"
  const PAYMENT_SUCCEEDED: string := "payment.succeeded"
  const PAYMENT_FAILED: string := "payment.failed"

  /** The event names of WEBHOOK_EVENTS, in declaration order. */
  const WEBHOOK_EVENTS: seq<string> := [
    COMPANY_UPDATED, COMPANY_DELETED, ORDER_CREATED, ORDER_UPDATED,
    PRODUCT_CREATED, PRODUCT_UPDATED, SUBSCRIPTION_CREATED, SUBSCRIPTION_UPDATED,
    SUBSCRIPTION_CANCELLED, PAYMENT_SUCCEEDED, PAYMENT_FAILED
  ]
}
