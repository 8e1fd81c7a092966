# Idempotent participants of the distributed saga orchestrator

This project models the command side of the three saga participants in the
distributed-saga-orchestrator repository: the inventory, order and payment services.
It also models the small platform helpers they rely on. Everything is written and
proved in Dafny.

Each participant follows the same **idempotent-command** pattern:

1. Look the caller's idempotency key up in an idempotency table. The lookup is joined
   to the entity's *current* row, and a record older than 24 hours no longer answers.
2. On a hit, answer the projection of that row and do nothing else.
3. On a miss, build or load the entity, change it, persist it, and answer its projection.
   - A create writes the entity row, one row per line item and the idempotency record in
     a single all-or-nothing transaction.
   - A compensation (release, cancel, refund) only rewrites the status and `updated_at`,
     and records no key.

The model consists of:

- **Entities** (`reservation.dfy`, `order.dfy`, `payment.dfy`).
  - `Reservation` and `Order` are classes whose transition methods change `status` and
    `updatedAt` in place.
  - Each transition is specified by a function on the entity's state value
    (`AfterRelease`, `AfterCancel`, …).
  - `Payment` is a plain value with its factory `NewPayment`.
- **Tables** (`tables.dfy`, `idempotency.dfy`, `sql.dfy`). These are the in-memory tables
  that stand in for Postgres:
  - a primary table of `Row`s;
  - a child table of `ItemRow`s;
  - an idempotency table of `Record`s `(key, subject id, operation, snapshot, created_at, expires_at)`.

  `Lookup` is the join that `CheckIdempotency` runs. Database failures are inputs:
  - a `WriteFault` names the one statement of a create transaction that fails;
  - an `Option<Error>` is a failing single-row query;
  - an `ItemsFault` is a failing item query, row scan or iteration.
- **Repositories** (`reservation_store.dfy`, `order_store.dfy`, `payment_store.dfy`).
  These are classes holding the tables as `seq` fields. `Create` is a step-by-step
  transaction with a loop over the item inserts, which commits by assigning all tables at
  once. The read methods load items in a loop, as `rows.Next()` does.
- **Use cases** (`inventory_usecases.dfy`, `order_usecases.dfy`, `payment_usecases.dfy`).
  - The command handlers are classes over their repository, with the DTOs in
    `*_dto.dfy`.
  - Each `Execute` states its full outcome: the failed key check, the hit, every failure
    on the miss path, and the success with the exact new tables.
  - Scenario methods (`ReserveTwice`, `ReleaseTwice`, `CreateTwice`, `ProcessTwice`, `CancelTwice`) prove what repeating
    a request does.
- **Helpers**:
  - `errors.dfy` holds the platform domain error, `Error()`, `Unwrap()`, and the
    `errors.Is`/`errors.As` chain walk;
  - `error_mapper.dfy` holds `ToStatus`;
  - `validate.dfy` holds the configuration guard clauses;
  - `retry.dfy` holds `retry.Do` with exponential backoff.

Time is a `nat` of nanoseconds passed in as `now`. Fresh ids (`uuid.New`) are parameters
of type `Uuid`, a non-empty string, and are required not to occur in the table already.
Go's `error` is the datatype `Errors.Error`, which has three forms:
- `Domain`, the platform `*Error`;
- `Wrapped`, from `fmt.Errorf` with `%w`;
- `Foreign`, any other error.

A nil error is `None`.

## Model

| member | source | states |
|---|---|---|
| Errors.CodeNamesDistinct | platform/errors/errors.go:5-12 | the six error codes have six distinct names |
| Errors.E | platform/errors/errors.go:20-34 | `E(c, m, e)` is a domain error with code `c`; `Error()` gives back exactly `m` whatever it wraps; `Unwrap()` gives back exactly `e`, nil included |
| Errors.Chain | platform/errors/errors.go:24-26 | the unwrap chain starts at the error and continues with what `Unwrap` yields until it yields nil |
| Errors.As | platform/grpc/error_mapper.go:17-18 | `errors.As` into `*Error` finds a domain error on the chain, and finds none exactly when the chain holds none |
| Errors.AsFindsFirstDomain | platform/grpc/error_mapper.go:17-18 | what `errors.As` finds is the first domain error on the chain: no earlier link is one |
| Errors.Is | services/order/internal/infrastructure/repository/postgres_order.go:130 | `errors.Is` holds exactly when the error is the target or the target lies on the chain of what it unwraps to |
| Errors.WrappingKeepsDomain | services/order/internal/application/usecase/cancel_order.go:36-39 | a `fmt.Errorf("...: %w", e)` wrapper is classified like `e` |
| ErrorMapper.ToStatus | platform/grpc/error_mapper.go:12-41 | nil maps to nil; an internal status always carries the generic message; an exposed message comes from a domain error on the chain; an error with no domain error maps to Internal "internal server error"; otherwise the first domain error on the chain decides: an exposed code keeps its message, Internal gets the generic one |
| ErrorMapper.ToStatusTable | platform/grpc/error_mapper.go:22-40 | NotFound→NotFound, Conflict→AlreadyExists, Invalid→InvalidArgument, Forbidden→PermissionDenied, Unauthorized→Unauthenticated keep the message; Internal hides it |
| ErrorMapper.ExposedInjective | platform/grpc/error_mapper.go:22-36 | distinct exposed domain codes give distinct RPC codes |
| ErrorMapper.ForeignIsInternal | platform/grpc/error_mapper.go:17-20 | a driver or context error reaches the client as Internal with the generic message |
| ErrorMapper.WrappersKeepStatus | platform/grpc/error_mapper.go:17-18 | any stack of `%w` wrappers leaves the status of the wrapped error unchanged |
| ConfigValidation.Validate | platform/config/validate.go:5-24 | nil exactly when open connections > 0, idle connections >= 0 and production implies sslmode "require"; otherwise the message of the first failing check, in order |
| ConfigValidation.SslModeFreeOutsideProduction | platform/config/validate.go:15-21 | outside production the SSL mode does not affect the verdict |
| ConfigValidation.ZeroIdleAccepted | platform/config/validate.go:11-13 | zero idle connections are accepted |
| Retry.DefaultConfig | shared/pkg/retry/retry.go:18-25 | 3 attempts, 100ms first wait, 5s cap, multiplier 2 |
| Retry.NextWait | shared/pkg/retry/retry.go:51-54 | a recomputed wait never exceeds the cap |
| Retry.NextWaitValue | shared/pkg/retry/retry.go:51-54 | for every multiplier ratio, the next wait is the previous wait times the multiplier, truncated to whole nanoseconds, then capped at `MaxWait` |
| Retry.BackoffClosedForm | shared/pkg/retry/retry.go:30-54 | with a whole multiplier m, the n-th wait (n >= 1) is min(initial·mⁿ, cap) |
| Retry.LaterWaitsCapped | shared/pkg/retry/retry.go:51-54 | every wait after the first is at most the cap |
| Retry.Do | shared/pkg/retry/retry.go:28-59 | at most MaxAttempts calls and none when MaxAttempts <= 0; success exactly when the last call succeeded, with no call after it; no wait after the final attempt; the waits are the backoff sequence; a cancellation during a wait returns "retry cancelled" wrapping the context error; exhaustion names MaxAttempts and wraps the last error, or nil when nothing ran |
| Retry.DefaultPolicyAgainstPermanentFailure | shared/pkg/retry/retry.go:18-58 | under the defaults a permanently failing operation is called 3 times, waits 100ms then 200ms, and ends with "max retry attempts reached (3)" wrapping its error |
| ReservationEntity.StatusNamesDistinct | services/inventory/internal/domain/entity/reservation.go:8-12 | RESERVED, RELEASED and CONFIRMED are distinct |
| ReservationEntity.AfterRelease | services/inventory/internal/domain/entity/reservation.go:48-51 | release yields RELEASED from any status with `UpdatedAt = now`; id, order, items and creation time are untouched |
| ReservationEntity.AfterConfirm | services/inventory/internal/domain/entity/reservation.go:54-57 | confirm yields CONFIRMED from any status, RELEASED included, touching only status and `UpdatedAt` |
| ReservationEntity.ReleaseIdempotent | services/inventory/internal/domain/entity/reservation.go:48-51 | releasing twice is releasing once at the later time |
| ReservationEntity.LastTransitionWins | services/inventory/internal/domain/entity/reservation.go:48-57 | there are no guards: the last of release and confirm decides the status |
| ReservationEntity.Reservation.constructor | services/inventory/internal/domain/entity/reservation.go:35-44 | `NewReservation` keeps the order id and the items exactly, sets RESERVED, leaves the id empty and stamps both times with `now` |
| ReservationEntity.Reservation.Release | services/inventory/internal/domain/entity/reservation.go:48-51 | the object's new state is `AfterRelease` of its old state |
| ReservationEntity.Reservation.Confirm | services/inventory/internal/domain/entity/reservation.go:54-57 | the object's new state is `AfterConfirm` of its old state |
| OrderEntity.StatusNamesDistinct | services/order/internal/domain/entity/order.go:8-12 | CREATED, CONFIRMED and CANCELLED are distinct |
| OrderEntity.AfterCancel | services/order/internal/domain/entity/order.go:46-49 | cancel yields CANCELLED from every status, CONFIRMED included, touching only status and `UpdatedAt` |
| OrderEntity.AfterConfirm | services/order/internal/domain/entity/order.go:52-55 | confirm yields CONFIRMED from every status, CANCELLED included, touching only status and `UpdatedAt` |
| OrderEntity.CancelIdempotent | services/order/internal/domain/entity/order.go:46-49 | cancelling twice is cancelling once at the later time |
| OrderEntity.LastTransitionWins | services/order/internal/domain/entity/order.go:46-55 | there are no illegal-state checks: the last transition decides the status |
| OrderEntity.Order.constructor | services/order/internal/domain/entity/order.go:33-43 | `NewOrder` cannot fail; it copies customer, items and total unchecked, sets CREATED, leaves the id empty and stamps both times with `now` |
| OrderEntity.Order.Cancel | services/order/internal/domain/entity/order.go:46-49 | the object's new state is `AfterCancel` of its old state |
| OrderEntity.Order.Confirm | services/order/internal/domain/entity/order.go:52-55 | the object's new state is `AfterConfirm` of its old state |
| PaymentEntity.StatusNamesDistinct | services/payment/internal/domain/entity/payment.go:11-16 | PENDING, PROCESSED, FAILED and REFUNDED are distinct |
| PaymentEntity.NewPayment | services/payment/internal/domain/entity/payment.go:28-39 | a PENDING payment with a fresh non-empty id, order, customer and amount as given, both times `now` |
| Tables.IndexOfId | services/order/internal/infrastructure/repository/postgres_order.go:112-128 | the row selected by id is the first with that id, and there is none exactly when no row has it |
| Tables.SetStatusFrame | services/inventory/internal/infrastructure/repository/postgres_reservation.go:129-137 | the status update changes status and `updated_at` of the rows with the id and nothing else; ids and uniqueness are kept |
| Tables.SetStatusAbsent | services/inventory/internal/infrastructure/repository/postgres_reservation.go:129-137 | an update whose id matches no row leaves the table as it was |
| Tables.LoadAfterInsert | services/inventory/internal/infrastructure/repository/postgres_reservation.go:47-58 | after a create, loading the new owner's items gives back exactly the inserted items in order, and every other owner's items are unchanged |
| Idempotency.Issue | services/inventory/internal/infrastructure/repository/postgres_reservation.go:62-69 | the record holds the key, the new id, the operation and the snapshot, created at `now` and expiring 24 hours later |
| Idempotency.IssueLiveWindow | services/inventory/internal/infrastructure/repository/postgres_reservation.go:86 | a record written at `now` is live exactly at times before `now + 24h`; the test is strict |
| Idempotency.Lookup | services/inventory/internal/infrastructure/repository/postgres_reservation.go:77-101 | the key check misses exactly when no live record for the key joins a row; a hit is an existing row that a live record for the key points at |
| Idempotency.LookupExpired | services/order/internal/infrastructure/repository/postgres_order.go:92 | once every record for the key has `expires_at <= now`, the lookup misses |
| Idempotency.MissPersists | services/payment/internal/infrastructure/repository/postgres_payment.go:77 | with the tables unchanged, a miss stays a miss at every later time |
| Idempotency.LookupAfterCreate | services/inventory/internal/infrastructure/repository/postgres_reservation.go:23-102 | after a create's row and record are added, a lookup answers what it answered before if that was a hit, and otherwise the new row while its record is live |
| Idempotency.ReplayWindow | services/order/internal/infrastructure/repository/postgres_order.go:61-109 | after a create that followed a miss, the key answers the new row at every time before 24h have passed, and nothing afterwards |
| Idempotency.LookupAfterSetStatus | services/order/internal/infrastructure/repository/postgres_order.go:81-109 | a hit shows the row's current status and `updated_at`, not the ones stored in the snapshot |
| ReservationStore.CreateFailureStatus | services/inventory/internal/infrastructure/repository/postgres_reservation.go:24-73 | every failure before the commit reaches a client as a bare Internal error; a failed commit is returned unwrapped |
| ReservationStore.FromRow | services/inventory/internal/infrastructure/repository/postgres_reservation.go:88-101 | a reservation read from its row has the row's columns and no items |
| ReservationStore.IndexOfOrder | services/inventory/internal/infrastructure/repository/postgres_reservation.go:105-115 | the row selected by order id is the first for that order, and there is none exactly when no row has it |
| ReservationStore.IndexOfOrderAfterSetStatus | services/inventory/internal/infrastructure/repository/postgres_reservation.go:104-137 | a status update keeps every order id in place, so the same row is selected by order afterwards |
| ReservationStore.ReservationRepository.constructor | services/inventory/internal/infrastructure/repository/postgres_reservation.go:20-22 | a new repository has empty, consistent tables |
| ReservationStore.ReservationRepository.Create | services/inventory/internal/infrastructure/repository/postgres_reservation.go:23-74 | the reservation gets the fresh id unless `Begin` failed, and keeps it even if a later step fails; success means adding exactly the row, one item row per item in order, and the RESERVE record; any reached failure returns its error and leaves every table unchanged |
| ReservationStore.ReservationRepository.CheckIdempotency | services/inventory/internal/infrastructure/repository/postgres_reservation.go:76-102 | no-rows is a miss with no error; another query error is Internal "failed to check idempotency"; a hit is a new object with the live row's fields and no items |
| ReservationStore.ReservationRepository.LoadItems | services/inventory/internal/infrastructure/repository/postgres_reservation.go:140-161 | the reservation's items in table order; a failing query, scan of an existing row or iteration gives Internal "failed to load reservation items" |
| ReservationStore.ReservationRepository.GetByOrderID | services/inventory/internal/infrastructure/repository/postgres_reservation.go:104-127 | the first row for the order with its items; a missing row is Internal wrapping no-rows, not NotFound; an item failure is wrapped twice |
| ReservationStore.ReservationRepository.Update | services/inventory/internal/infrastructure/repository/postgres_reservation.go:129-137 | the error is the driver's, unwrapped; on success only status and `updated_at` of the matching rows change; no record is written |
| OrderStore.CreateFailureStatus | services/order/internal/infrastructure/repository/postgres_order.go:25-77 | every create failure, the commit's included, wraps its cause and reaches a client as a bare Internal error |
| OrderStore.FromRow | services/order/internal/infrastructure/repository/postgres_order.go:94-108 | an order read from its row has the row's columns and no items |
| OrderStore.RowFailure | services/order/internal/infrastructure/repository/postgres_order.go:129-134 | a failed order query is NotFound "order not found" exactly when it is no-rows, and Internal "query order" otherwise; the client sees NotFound with that message, or Internal with the generic message |
| OrderStore.ItemQueryFailure | services/order/internal/infrastructure/repository/postgres_order.go:140-146 | a failed item query is NotFound "order item not found" exactly when it is no-rows, and Internal "query order item" otherwise; the client sees NotFound with that message, or Internal with the generic message |
| OrderStore.OrderRepository.constructor | services/order/internal/infrastructure/repository/postgres_order.go:20-22 | a new repository has empty, consistent tables |
| OrderStore.OrderRepository.Create | services/order/internal/infrastructure/repository/postgres_order.go:24-79 | the order gets the fresh id unless `Begin` failed; success returns the same order and adds exactly the row, its item rows in order and the CREATE record; any reached failure returns no order and leaves every table unchanged |
| OrderStore.OrderRepository.CheckIdempotency | services/order/internal/infrastructure/repository/postgres_order.go:81-109 | no-rows is a miss with no error; another query error is Internal "query order"; a hit is a new object with the live row's fields and no items |
| OrderStore.OrderRepository.FindByID | services/order/internal/infrastructure/repository/postgres_order.go:111-162 | a missing order is NotFound; otherwise the row with all its items appended in table order, or the error of the failing items step |
| OrderStore.OrderRepository.Update | services/order/internal/infrastructure/repository/postgres_order.go:164-176 | a failure is wrapped as Internal "failed to update order" and changes nothing; success changes only status and `updated_at` of the matching rows |
| PaymentStore.FromRow | services/payment/internal/infrastructure/repository/postgres_payment.go:80-97 | a payment read back has exactly the columns of its row |
| PaymentStore.RowRoundTrip | services/payment/internal/infrastructure/repository/postgres_payment.go:33-97 | every field of a payment is stored and read back, so a stored payment reads back unchanged |
| PaymentStore.PaymentRepository.constructor | services/payment/internal/infrastructure/repository/postgres_payment.go:18-20 | a new repository has empty, consistent tables |
| PaymentStore.PaymentRepository.Create | services/payment/internal/infrastructure/repository/postgres_payment.go:22-63 | the factory's id is replaced by the fresh one unless `Begin` failed; success adds exactly the row and the CREATE record; every failure is the driver's error unwrapped and leaves both tables unchanged |
| PaymentStore.PaymentRepository.CheckIdempotency | services/payment/internal/infrastructure/repository/postgres_payment.go:65-98 | no-rows is a miss with no error; another query error is returned unwrapped; a hit is the live row as a payment |
| InventoryUseCases.ToResponse | services/inventory/internal/application/usecase/reserve_inventory.go:53-61 | the response is the reservation's id, order, status text and both times |
| InventoryUseCases.ReplayResponseMatches | services/inventory/internal/application/usecase/reserve_inventory.go:25-32 | a replay answered from the stored row equals the original response, because items are not part of it |
| InventoryUseCases.RequestedItems | services/inventory/internal/application/usecase/reserve_inventory.go:35-41 | one domain item per request line, with the same product and quantity, in order |
| InventoryUseCases.ConvertItems | services/inventory/internal/application/usecase/reserve_inventory.go:35-41 | the conversion loop fills its buffer with exactly `RequestedItems` |
| InventoryUseCases.ReserveInventory.Execute | services/inventory/internal/application/usecase/reserve_inventory.go:21-51 | a check error is returned with no write; a hit answers the stored reservation with no write; a miss creates a RESERVED reservation with the requested items and answers it with the store's id, or returns the create error with no row written |
| InventoryUseCases.ReleaseInventory.Execute | services/inventory/internal/application/usecase/release_inventory.go:24-53 | a check error or a lookup failure is returned with no write; a hit answers with no write; otherwise the order's reservation becomes RELEASED from any status and the response says RELEASED; an update failure is returned |
| InventoryUseCases.ReserveTwice | services/inventory/internal/application/usecase/reserve_inventory.go:25-32 | the same request repeated before its key expires returns the same reservation id and adds no second row |
| InventoryUseCases.ReleaseTwice | services/inventory/internal/application/usecase/release_inventory.go:24-53 | a release repeated with a key no create stored runs again, answers RELEASED for the same reservation, restamps its row with the second time and writes no record |
| OrderUseCases.ToResponse | services/order/internal/application/usecase/create_order.go:72-80 | the response is exactly id, customer, status text, total and creation time |
| OrderUseCases.ResponseIgnoresItemsAndUpdate | services/order/internal/application/usecase/cancel_order.go:55-63 | a replay from the row equals the original response, and a cancel changes only the status text in it |
| OrderUseCases.RequestedItems | services/order/internal/application/usecase/create_order.go:42-49 | one domain item per request line, with the same product, quantity and price, in order |
| OrderUseCases.ConvertItems | services/order/internal/application/usecase/create_order.go:42-49 | the conversion loop fills its buffer with exactly `RequestedItems` |
| OrderUseCases.CancelFailureStatus | services/order/internal/application/usecase/cancel_order.go:36-47 | the "order not found" wrapper keeps the inner error's status, and a failed update reaches a client as a bare Internal error |
| OrderUseCases.CancelMissingOrderStatus | services/order/internal/application/usecase/cancel_order.go:36-39 | cancelling an order that does not exist reaches a client as NotFound "order not found" |
| OrderUseCases.CreateOrder.Execute | services/order/internal/application/usecase/create_order.go:27-69 | a check error is returned with no write; a hit answers the stored order and creates nothing; a miss creates a CREATED order from the request and answers it with the store's id, or returns the create error with no row written |
| OrderUseCases.CancelOrder.Execute | services/order/internal/application/usecase/cancel_order.go:25-54 | a hit answers with no write; a check error is ignored; lookup and update failures are returned wrapped with no write; otherwise the order becomes CANCELLED from any status and the response says so |
| OrderUseCases.CreateTwice | services/order/internal/application/usecase/create_order.go:28-38 | the same order request repeated before its key expires returns the same CREATED order with the same id and adds no second row |
| OrderUseCases.CancelTwice | services/order/internal/application/usecase/cancel_order.go:27-47 | a cancel repeated with a key no create stored runs again, answers CANCELLED again and restamps the row with the second time |
| PaymentUseCases.ToResponse | services/payment/internal/application/usecase/process_payment.go:44-54 | the response carries all seven fields of the payment |
| PaymentUseCases.ToRefundResponse | services/payment/internal/application/usecase/refund_payment.go:51-56 | the refund response carries only id and status; the other fields are zero values |
| PaymentUseCases.RefundResponseIsTruncated | services/payment/internal/application/usecase/refund_payment.go:51-56 | the refund response is the full response with every field except id and status cleared |
| PaymentUseCases.ProcessPayment.Execute | services/payment/internal/application/usecase/process_payment.go:21-42 | a check error is returned unwrapped with no write; a hit answers with no write; a miss creates a PENDING payment and answers it with the store's id, not the factory's, or returns the create error with no row written |
| PaymentUseCases.RefundPayment.Execute | services/payment/internal/application/usecase/refund_payment.go:22-49 | a check error is returned; a hit answers without lookup, refund or update; a failed lookup is wrapped as "payment not found"; otherwise the refunded payment is handed to update, whose error is returned as is |
| PaymentUseCases.ProcessTwice | services/payment/internal/application/usecase/process_payment.go:23-41 | the same payment request repeated before its key expires returns the same payment id and adds no second row |

## Left out

- Transport and wiring are left out as I/O and process lifecycle. This covers gRPC
  handlers, servers, interceptors, `platform/app`, every `cmd/main.go`, database
  connection code, `config.Load` and the logger. Logging calls in the use cases have no
  effect in the model.
- SQL text, concurrent transactions and unique constraints are left out, because the
  schema is not part of the repository. Two live records may share a key, and the lookup
  then takes the first in table order. `QueryRow` without `ORDER BY` is likewise modelled
  as the first matching row in insertion order.
- The JSON snapshot is kept as the entity's state value. It is never read back, and no
  encoding is modelled.
- Money (`TotalAmount`, `Price`, `Amount`) is an `int`, since it is only copied and never
  computed on.
- The clock is read once per call: the same `now` stamps the entity and the record.
  The source reads `time.Now()` separately for each.
- Timestamps are assumed to be stored and read back exactly. The model keeps nanoseconds,
  while Postgres timestamp columns keep microseconds. The replay equalities rest on this
  assumption: `InventoryUseCases.ReplayResponseMatches`,
  `OrderUseCases.ResponseIgnoresItemsAndUpdate`, `PaymentStore.RowRoundTrip`, and
  `second == first` in `ReserveTwice`, `CreateTwice` and `ProcessTwice`. With
  microsecond storage, a replay would differ from the original response in the
  sub-microsecond part of `createdAt` and `updatedAt`.
- The expiry test `expires_at > NOW()` runs against the database server's clock. The
  model evaluates it against the caller's `now`, so `Idempotency.Live` treats the two
  clocks as one.
- Ids are parameters (`freshId`), and callers must guarantee they are unused. This stands
  in for the uniqueness of `uuid.New()`.
- The repository interfaces in the source do not declare `GetByOrderID` or `Update` for
  reservations, yet the release use case calls them. The model gives these methods to the
  repository class directly.
- The payment service defines no `GetByID`, `Update` or `Payment.Refund`. The refund use
  case takes them as function parameters.
- PaymentUseCases.RefundPayment.Execute: it states what is handed to `update`, but not
  any table change, since the write itself is not defined by the service.
- PaymentStore.PaymentRepository.Create: the source changes the id of the caller's
  `*Payment` in place. The model returns the payment with its new id as `withId` instead,
  so aliasing of the payment object is not captured.
- The order service's handling of a failing `NewOrder` (create_order.go:52-55) is not
  modelled. `NewOrder` returns a single value (order.go:33), so that branch cannot be
  taken.
- `Reservation.Confirm` and `Order.Confirm` are modelled, but no use case in the core
  calls them.
- Retry.Do: the float64 multiplier is modelled as a ratio of naturals with truncation.
  The int64 `time.Duration` overflow of a long backoff is not modelled. The operation and
  the context are functions of the attempt number, and real timers are not modelled.
- Retry.Config: `InitialWait`, `MaxWait` and the multiplier are natural numbers. Go's
  `time.Duration` and `float64` also admit negative values, so a negative
  configuration is not modelled.
- Errors.Code: the domain code is a closed datatype of the six declared codes. In Go,
  `Code` is a string type that admits any value. Codes outside the six are not modelled.
  The mapper's `default` branch (error_mapper.go:38-39) is modelled: Internal, which has
  no case of its own, reaches it (`Exposed(Internal)` is `None`, see
  `ErrorMapper.ToStatusTable`). An undeclared code would reach it too, but cannot be
  expressed in the model.
- Sql.ErrNoRows: the check-idempotency queries compare with `err == sql.ErrNoRows`
  (postgres_reservation.go:94, postgres_order.go:100, postgres_payment.go:88), which is
  identity of the error value. The model compares error values structurally, so any
  error equal to `ErrNoRows` as a value counts as a miss. A wrapped no-rows does not,
  as in the source.
- `rows.Close` errors are ignored by the source and are not modelled.
