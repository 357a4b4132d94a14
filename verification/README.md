# MeliSim protocols, modelled and proved

MeliSim is a marketplace of small services. This project models the protocols they run between
them and proves what those protocols keep, over every run and every interleaving of their steps.
It consists of seven models:

- **Order saga and transactional outbox** (`Orders`, `Outbox`, `OrdersService`, `OutboxProgress`,
  `OutboxFifo`, `OutboxTies`, `OutboxCopies`, `OutboxHistory`, `OrderLifecycle`, `StockSaga`,
  `StockRetries`, `Causality`). Orders and their outbox rows, the drain of
  the publisher worker with aborts, send timeouts and late broker appends, the cleanup, the retried
  stock decrement after commit, and the payment events that come back.
- **Sliding-window rate limiters** (`SlidingWindow`, `RateLimiter`, `RateLimiterClock`,
  `RedisLimiter`, `RedisQuota`, `RedisStore`). Both are compared with one specification over the full history of admissions.
- **At-least-once consumers** (`Consumer`, `ConsumerFates`, `SearchIndex`). Bounded retry, dead letters and the
  batch commit, with crashes between any two steps; the search index that such a consumer feeds.
- **Catalog paging** (`Catalog`, `CatalogWalk`). Clients that walk the pages, through the cache or
  without one, while products are added.
- **Cache-aside** (`CacheAside`, `CatalogTable`, `CacheStaleness`). Which cached entries are current, and how old a
  served value can be when cache commands fail and readers overlap writers.
- **From the product table to the search index** (`StockFlow`). The published stock updates and the
  consumer that indexes them, end to end.
- **Idempotent payments** (`Payments`, `PaymentAnswers`). Lookup, charge and store as three separate steps.

A failing outbox row always gets a first attempt, so its budget ("Budget" below) is the configured
maxAttempts, or 1 if that is less.

Code that changes state is a class whose methods are proved equal to one step (or a run of steps)
of a step system written as functions. The properties are proved about runs of that system, so
they hold of the methods. The steps that a class cannot take by itself (crashes, a broker that
appends late, other requests in between) are steps of the system too. Beside the invariants, each
system has theorems that tell its states and answers from the steps of a run alone.

## Findings

Where the code does not do what it says, or what a reader would expect, the model follows the code.
A lemma gives the input, and another the exact condition where there is one.

- `payments-service/models/idempotency.py:10-12` promises that a key is never charged twice, even
  for a duplicate that overlaps the original. In every interleaving the charges of a key are exactly
  the requests that looked it up before it was first stored and went on to charge
  (`Payments.OneChargePerMiss`); if all of them do, the promise is kept if and only if there is at
  most one (`Payments.ChargedOnceExactly`). Requests that do not overlap keep it if and only if the key
  fits its column of 120 characters: a longer one is charged, and fails to be stored, every time
  (`Payments.SerialChargesOnceExactly`). `Payments.DuplicateChargedUnlessAfterStore` and
  `Payments.CrashBeforeStoreChargesTwice` are runs that break it.
- Rows created at the same moment may be served in any order. A row with p rows ahead then leaves
  PENDING within maxAttempts * (p / batchSize + 1) drains, the division rounded down, for every
  schedule if and only if p < batchSize or maxAttempts * (p % batchSize) < batchSize
  (`OutboxTies.TiesMatterExactly`). The bound holds always when creation times differ
  (`OutboxFifo.FifoProgress`), and with exact division in any case (`OutboxProgress.BoundedProgress`).
- `OutboxPublisherWorker.kt:46-47` says that a second worker skips the locked rows. The lock is a
  plain write lock, so it waits; drains are therefore serial in the model.
- Only the listings (1,20), (1,50) and (1,100) are invalidated. Every other listing can be stale for
  its TTL, among them (0,0), the key used when a client asks for no page and size
  (`CacheAside.OnlyWatchedNeverStale`).
- Page walks go through that cache. In every state that a service without deletions reaches, however
  its requests overlap and whatever cache commands fail, a client's walks return every product of a
  growing catalog if and only if no later page is cached when they start, and the first page is not
  cached from an older catalog (`CatalogWalk.CompleteExactly`), as long as no other client lists with
  the same page size meanwhile; with one that does, as two bootstraps at once, no nonempty catalog is
  safe (`CatalogWalk.OnlyEmptyAmidOthers`). The stock monitor's first page is
  invalidated by every write, so in sequential runs with a working cache only its later pages matter
  (`CatalogWalk.MonitorWalkExactly`); but one listing that overlaps a create is enough to leave it
  old, and then a product is lost (`CatalogWalk.LateFillLosesProduct`). The search bootstrap's pages
  are never invalidated (`CatalogWalk.BootstrapExactly`). After deletions the condition is still
  enough (`CatalogWalk.HarmlessIsEnough`) but no longer needed: a cached page may then happen to show
  all that is left (`CatalogWalk.DeletionsCanHelp`).
- A working invalidation makes later reads current if and only if every reader then between its store
  read and its fill holds the written value already (`CacheStaleness.InvalidationWorksExactly`).
- A page size above 200 is replaced by 20, so a client that asks for more stops after 20 rows
  (`Catalog.StillWalkIsTable`).
- The stock decrement is retried without a key. It can take effect up to three times, as far as the
  stock goes; with no other writer meanwhile an order takes its units at most once, whatever is lost,
  if and only if the product has less than twice of them (`StockSaga.AppliedAtMostExactly`).
- A consumer commits a readable message that no handler saw if and only if it is configured with no
  tries (`Consumer.UnhandledOnlyWithoutRetries`), and then it does so with every one
  (`Consumer.NoRetriesCommitsUnhandled`).
- A null value stops its partition for good, because wrapping it for the dead-letter topic fails as
  well. An offset can be reached by the commit if and only if no null value lies before it
  (`Consumer.NullValueIsTheLimit`).
- The Redis limiter with a quota of 2 or more keeps it over windows shorter than the configured one
  by the spread of the gateways' clocks, and over no longer ones: a window longer than that can hold
  2q - 1 admissions. A quota of 1 is kept over the whole window unless the spread exceeds a second,
  when keys can expire too early (`RedisQuota.QuotaKeptExactly`).
- The in-memory limiter on a clock that falls back by at most d: a deque has dropped admissions that
  an earlier reading makes count again. Closed windows of a length hold at most the quota if and only
  if that is at most W - d, or the quota is 1 and it is at most W; longer ones can hold 2q - 1
  admissions (`RateLimiterClock.QuotaKeptExactly`, `RateLimiterClock.FallExceeds`).
- Stock updates are published after they are written, so overlapping updates can be published in
  another order. The index ends with the stock that the last published update reports, which is the
  table's if and only if the updates written after that one add up to nothing
  (`StockFlow.IndexEndsWithLatest`).
- PATCH of an order's status breaks the rule that every paid or cancelled order has its payment
  exactly when it is accepted, asks for PAID or CANCELLED, and the matching payment is not committed
  (`Causality.PatchKeepsCauseExactly`).

## Model

| member | source | states |
|---|---|---|
| Outbox.NoLostNoGhostEvents | orders-service/src/main/kotlin/com/melisim/orders/outbox/OutboxPublisherWorker.kt:49-97 | over every run of creates, drains, aborted drains, late broker appends, cleanups and status updates: orders and staged rows stay in bijection, every SENT (or cleaned) row has its record in the log, every record is the id and creation snapshot of a committed order, and a row is FAILED exactly when its attempts reach the budget |
| Outbox.StepSafe | orders-service/src/main/kotlin/com/melisim/orders/outbox/OutboxPublisherWorker.kt:49-97 | each single step keeps that invariant |
| Outbox.EmptyIsSafe | orders-service/src/main/kotlin/com/melisim/orders/service/OrderService.kt:39-74 | the empty tables satisfy it |
| Outbox.StagedIsConserved | orders-service/src/main/kotlin/com/melisim/orders/outbox/OutboxPublisherWorker.kt:62-91 | staged = pending + sent + failed + cleaned, and as many rows were staged as there are orders |
| Outbox.SettledForGood | orders-service/src/main/kotlin/com/melisim/orders/outbox/OutboxRepository.kt:31-37 | a row that left PENDING never changes; it is deleted if and only if it was SENT before the cutoff of some cleanup |
| OutboxCopies.CopiesAreSends | orders-service/src/main/kotlin/com/melisim/orders/outbox/OutboxPublisherWorker.kt:57-91 | in every run the copies of an order's record, in the log or still possibly arriving, are exactly its failed sends, one more once it is SENT, and the aborted drains that had fired it; after cleanup they lie between 1 and the attempt budget plus those aborts |
| OutboxHistory.OrdersAreRequests | orders-service/src/main/kotlin/com/melisim/orders/service/OrderService.kt:39-74 | in every run the orders are exactly the accepted create requests, in order; each has its request's buyer, product and quantity, the looked-up price, and the price times the quantity as total |
| OutboxHistory.RecordsAreRequests | orders-service/src/main/kotlin/com/melisim/orders/service/OrderService.kt:60-69 | every record in the log or in flight is on the topic order-created and announces such a request under its order's id, as it was when placed |
| OutboxHistory.RowsAreRequests | orders-service/src/main/kotlin/com/melisim/orders/outbox/OutboxPublisher.kt:20-31 | every outbox row still carries the type of its event and the moment of its own request |
| OutboxHistory.RowsAreTold | orders-service/src/main/kotlin/com/melisim/orders/outbox/OutboxPublisherWorker.kt:64-91 | in every run each row is what its sends made of it: attempts are its failed sends, the error is the last one's message cut to 500 characters, SENT with the moment of its acknowledgement, FAILED if the failed sends used up the budget, deleted if a later cleanup passed that moment |
| OutboxHistory.SentWhenAcknowledged | orders-service/src/main/kotlin/com/melisim/orders/outbox/OutboxPublisherWorker.kt:65-68 | a SENT row carries the moment at which a committed drain had its send acknowledged |
| OutboxHistory.CleanedExactly | orders-service/src/main/kotlin/com/melisim/orders/outbox/OutboxRepository.kt:31-37 | a row is deleted if and only if a cleanup after its acknowledgement has a cutoff past that very moment |
| Outbox.LockPending | orders-service/src/main/kotlin/com/melisim/orders/outbox/OutboxRepository.kt:23-29 | in every table the locking query has an answer, so a drain is always possible |
| Outbox.CheckRequest | orders-service/src/main/kotlin/com/melisim/orders/service/OrderService.kt:41-50 | an order is accepted if and only if its three fields are positive, the product lookup succeeded and the stock covers the quantity; otherwise the first check that fails names the refusal |
| Outbox.SetStatusIsUpdate | orders-service/src/main/kotlin/com/melisim/orders/service/OrderService.kt:86-96 | the status step of this system is the guarded update that the payment listeners use |
| OutboxProgress.BoundedProgress | orders-service/src/main/kotlin/com/melisim/orders/outbox/OutboxPublisherWorker.kt:51-91 | a PENDING row with p pending rows ahead of it has left PENDING after more than Budget * (p / batchSize + 1) - 1 committed drains (exact division), whatever the sends do, how ties are broken, and what else happens in between |
| OutboxProgress.DrainUsesPotential | orders-service/src/main/kotlin/com/melisim/orders/outbox/OutboxPublisherWorker.kt:64-91 | a committed drain that leaves the row PENDING uses up a whole batch of the attempts left at or ahead of it |
| OutboxProgress.OtherKeepsPotential | orders-service/src/main/kotlin/com/melisim/orders/outbox/OutboxPublisherWorker.kt:57-60 | aborted drains, cleanups, late appends and later orders never add attempts ahead of the row |
| OutboxFifo.FifoProgress | orders-service/src/main/kotlin/com/melisim/orders/outbox/OutboxRepository.kt:23-29 | when the pending rows created up to r differ in creation time, r has left PENDING within Budget * (p / batchSize + 1) committed drains, the division rounded down |
| OutboxFifo.Phase | orders-service/src/main/kotlin/com/melisim/orders/outbox/OutboxPublisherWorker.kt:64-91 | a budget of drains moves a row that stays PENDING up by at least a whole batch |
| OutboxFifo.OneBatch | orders-service/src/main/kotlin/com/melisim/orders/outbox/OutboxRepository.kt:23-29 | with different creation times the query has exactly one answer |
| OutboxTies.TiesMatterExactly | orders-service/src/main/kotlin/com/melisim/orders/outbox/OutboxRepository.kt:23-29 | with ties allowed, the rounded-down bound holds for every table with p rows ahead and every schedule if and only if p < batchSize or Budget * (p % batchSize) < batchSize |
| OutboxTies.MissesBound | orders-service/src/main/kotlin/com/melisim/orders/outbox/OutboxPublisherWorker.kt:51-91 | outside that condition, rows placed at one moment and drained in turn miss the bound |
| OutboxTies.KeepsBound | orders-service/src/main/kotlin/com/melisim/orders/outbox/OutboxPublisherWorker.kt:51-91 | inside it every schedule meets the bound |
| OrdersService.OrdersService.Create | orders-service/src/main/kotlin/com/melisim/orders/service/OrderService.kt:39-74 | refuses in the order of the checks and writes nothing, or commits order and outbox row as one step and hands the decrement on |
| OrdersService.OrdersService.Stage | orders-service/src/main/kotlin/com/melisim/orders/outbox/OutboxPublisher.kt:20-31 | inserts exactly one PENDING row with no attempts, inside the caller's step |
| OrdersService.OrdersService.UpdateStatus | orders-service/src/main/kotlin/com/melisim/orders/service/OrderService.kt:86-96 | changes the status only along a legal transition; a missing order and an illegal one are told apart |
| OrdersService.OrdersService.FireAll | orders-service/src/main/kotlin/com/melisim/orders/outbox/OutboxPublisherWorker.kt:57-60 | hands over the records of the batch in order, up to a send that throws at once |
| OrdersService.OrdersService.AwaitAll | orders-service/src/main/kotlin/com/melisim/orders/outbox/OutboxPublisherWorker.kt:62-91 | settles every row of the batch by its own send and no other row; acknowledged records enter the log in send order, the others may still arrive |
| OrdersService.OrdersService.Drain | orders-service/src/main/kotlin/com/melisim/orders/outbox/OutboxPublisherWorker.kt:49-97 | is the drain step, or the aborted drain when a send throws: attempts are not counted but the records already handed over are out |
| OrdersService.OrdersService.Cleanup | orders-service/src/main/kotlin/com/melisim/orders/outbox/OutboxCleanupWorker.kt:23-30 | is the cleanup step, and reports how many rows it deleted |
| Orders.ConsumeAllIsFinal | orders-service/src/main/kotlin/com/melisim/orders/event/PaymentEventConsumer.kt:18-46 | after any list of payment events each order has the status that only the set of event kinds seen for it determines |
| Orders.PaymentEventsConfluent | orders-service/src/main/kotlin/com/melisim/orders/event/PaymentEventConsumer.kt:18-46 | two lists with the same messages, in any order and with any repetition, leave the same orders |
| OrderLifecycle.LifecycleExactly | orders-service/src/main/kotlin/com/melisim/orders/model/OrderStatus.kt:11-17 | over all sequences of status requests, accepted or refused, the histories of an order are exactly twelve: delivered right after shipped, shipped right after paid, nothing after delivery or cancellation, and each move possible |
| OrderLifecycle.FutureExactly | orders-service/src/main/kotlin/com/melisim/orders/service/OrderService.kt:86-96 | from each status exactly the listed ones can be reached by some requests |
| OrderLifecycle.RefusalsAreTold | orders-service/src/main/kotlin/com/melisim/orders/service/OrderService.kt:86-96 | an accepted request sets the status asked for, ahead of the present one; a refusal says that the order is missing, or which move is not allowed |
| Orders.PaymentEventConsumer.UpdateOrder | orders-service/src/main/kotlin/com/melisim/orders/service/OrderService.kt:86-96 | the guarded status update on the stored order, with its two errors |
| Orders.PaymentEventConsumer.OnPaymentConfirmed | orders-service/src/main/kotlin/com/melisim/orders/event/PaymentEventConsumer.kt:18-32 | consumes one confirmed message; garbled messages, ids that are not positive and illegal transitions change nothing |
| Orders.PaymentEventConsumer.OnPaymentFailed | orders-service/src/main/kotlin/com/melisim/orders/event/PaymentEventConsumer.kt:34-46 | consumes one failed message in the same way |
| StockSaga.StockConserved | products-service/internal/repository/product_repository.go:165-183 | in every run stock is never negative, stock plus units taken by orders is the initial stock plus all other deltas, no more is taken than was supplied, also of removed products, and no order's decrement is applied more than three times |
| StockSaga.AttemptConserves | orders-service/src/main/kotlin/com/melisim/orders/client/ProductsClient.kt:69-76 | a PATCH attempt keeps that balance, delivered or not, accepted or not, answered or not |
| StockSaga.ArriveConserves | orders-service/src/main/kotlin/com/melisim/orders/client/ProductsClient.kt:69-76 | so does a request that arrives after the client gave up waiting for it |
| StockSaga.AppliedAtMostExactly | orders-service/src/main/resources/application.yml:124-133 | with no other writer meanwhile, however the attempts go, whenever late requests arrive and wherever the process dies, a fresh order's decrement takes effect at most n times if and only if n is at least 3 or as often as the stock allows; at most once if and only if the stock is less than twice the quantity |
| StockSaga.LostResponsesTripleTheDecrement | orders-service/src/main/resources/application.yml:124-133 | two lost responses make one order take its units three times |
| StockRetries.TriesAgainExactly | orders-service/src/main/kotlin/com/melisim/orders/client/ProductsClient.kt:69-76 | in every run of one order's decrement the listener goes on exactly as long as every attempt ended in a retryable error, there were fewer than three, and the process lives |
| StockRetries.OnlyRetryableIsRetried | orders-service/src/main/resources/application.yml:124-133 | whatever is attempted again had failed with a retryable error each time before, fewer than three times |
| StockRetries.AnsweredOnceTakesOnce | orders-service/src/main/kotlin/com/melisim/orders/service/OrderSideEffects.kt:29-38 | an order whose first attempt ended without a retryable error makes no other, takes effect at most once and lowers the stock by no more than its quantity |
| StockRetries.ReachedIsApplied | products-service/internal/repository/product_repository.go:165-183 | with stock for all of them every request that reached the service took effect or is still to arrive |
| StockSaga.OrderSideEffects.OnOrderCreated | orders-service/src/main/kotlin/com/melisim/orders/service/OrderSideEffects.kt:29-38 | makes the attempts that the retry policy allows and swallows the last failure |
| StockSaga.OrderSideEffects.UpdateStock | products-service/internal/repository/product_repository.go:166-183 | takes effect exactly when the product exists and the result is not negative |
| Causality.StatusHasItsPayment | payments-service/services/payment_service.py:43-72 | in runs whose PATCH is not used for PAID or CANCELLED, a PAID, SHIPPED or DELIVERED order has a committed CONFIRMED payment and a CANCELLED one a committed FAILED payment, despite drops, reordering and redelivery |
| Causality.AlwaysCaused | payments-service/services/payment_service.py:30-72 | in every run from the beginning whose PATCH is not used for it, a PAID, SHIPPED or DELIVERED order has a committed payment below 100000, and a CANCELLED one a payment of at least 100000 |
| Causality.StepCaused | payments-service/events/payment_events.py:31-42 | each step keeps it: what is published was committed, and publications may be dropped |
| Causality.PatchKeepsCauseExactly | orders-service/src/main/kotlin/com/melisim/orders/service/OrderService.kt:86-96 | a PATCH keeps the rule if and only if it is refused, asks for neither PAID nor CANCELLED, or the matching payment is committed |
| Causality.PatchWithoutPayment | orders-service/src/main/kotlin/com/melisim/orders/service/OrderService.kt:86-96 | either excluded use of PATCH breaks the rule on any fresh order |
| SlidingWindow.AdmittedWithinQuota | api-gateway/middleware/rate_limiter.py:37-48 | whatever the trace, deciding by the full history of admissions leaves no window, wherever it starts, with more than the quota; a limiter that forgets admissions does so while its clock does not run back |
| SlidingWindow.Optimal | api-gateway/middleware/rate_limiter.py:33-48 | on every nondecreasing trace no selection of the requests that respects the quota in every window is larger than the limiter's |
| SlidingWindow.StaysAhead | api-gateway/middleware/rate_limiter.py:33-48 | the limiter's k-th admission is never later than the k-th of such a selection |
| SlidingWindow.ExclusiveDominates | api-gateway/middleware/rate_limiter_redis.py:31-40 | dropping admissions exactly one window old never costs an admission overall |
| RateLimiter.BucketAnswers | api-gateway/middleware/rate_limiter.py:37-48 | while the clock does not run back, answering from the bucket, which has discarded old admissions, is answering from the full history, and its admissions are those of the full history |
| RateLimiter.BucketIsHistory | api-gateway/middleware/rate_limiter.py:37-48 | then the bucket holds exactly the admissions of the full history that still count, in order |
| RateLimiter.RefusedMeansFull | api-gateway/middleware/rate_limiter.py:41-41 | at a refusal exactly the quota of past admissions still counts |
| RateLimiter.RetryAfterSoundAndLeast | api-gateway/middleware/rate_limiter.py:39-47 | the advice lies in 1..window+1; with nothing else admitted, any request from then on is admitted and one a second earlier is refused, as the delay-seconds of section 10.2.3 of RFC 9110 mean it |
| RateLimiter.RateLimiterMiddleware.constructor | api-gateway/middleware/rate_limiter.py:16-21 | starts without buckets and without history |
| RateLimiter.RateLimiterMiddleware.Slide | api-gateway/middleware/rate_limiter.py:35-48 | pops expired admissions off the front until one still counts, then refuses with the advice or appends, whatever the clock reads |
| RateLimiter.RateLimiterMiddleware.Dispatch | api-gateway/middleware/rate_limiter.py:29-50 | answers from the bucket that all requests of that key leave, and as their full history calls for while the clock does not run back; records an admission exactly when it forwards, and leaves every other key alone |
| RateLimiterClock.QuotaKeptExactly | api-gateway/middleware/rate_limiter.py:34-48 | for every quota, every fall d of the clock and every length: closed windows of that length hold at most the quota in every trace if and only if the length is negative, or at most W - d, or the quota is 1 and it is at most W |
| RateLimiterClock.ShorterWindows | api-gateway/middleware/rate_limiter.py:37-48 | whatever the trace, windows shorter than the configured one by the fall of the clock hold at most the quota of the deque's admissions |
| RateLimiterClock.FallExceeds | api-gateway/middleware/rate_limiter.py:39-40 | for every quota q, a trace whose longer window holds 2q - 1 admissions, because the deque has dropped those that count again |
| RateLimiterClock.OneAtATime | api-gateway/middleware/rate_limiter.py:39-48 | with a quota of 1 admissions are more than a window apart, whatever the clock does |
| RedisLimiter.FleetQuota | api-gateway/middleware/rate_limiter_redis.py:31-40 | across gateways whose clocks spread over d seconds, under every interleaving of script runs and whenever keys expire, no half-open score window of length W - d holds more than the quota of recorded admissions |
| RedisLimiter.AdviceSound | api-gateway/middleware/rate_limiter_redis.py:93-95 | when the gateways' readings up to a refusal do not run back, a request that waited the advised window is admitted, whatever was refused and whatever the server's clock did meanwhile, if nothing else was recorded |
| RedisQuota.QuotaKeptExactly | api-gateway/middleware/rate_limiter_redis.py:31-40 | for every quota, every spread of the clocks and every window length: the quota is kept over such windows in every interleaving if and only if it is 0, or the length is at most W minus the spread, or it is 1 and the length is at most W and at most W + 1 minus the spread |
| RedisQuota.BurstExceeds | api-gateway/middleware/rate_limiter_redis.py:78-98 | for every quota q of 2 or more, windows of any length above W minus the spread can hold 2q - 1 recorded admissions |
| RedisQuota.OneAtATime | api-gateway/middleware/rate_limiter_redis.py:31-40 | with a quota of 1 successive recorded admissions lie any distance apart that exceeds neither W nor W + 1 minus the spread |
| RedisLimiter.ExpiryIsInvisible | api-gateway/middleware/rate_limiter_redis.py:31-40 | with a spread of at most a second, key expiry changes neither the answer nor the set that a script run leaves |
| RedisLimiter.KeepsRecent | api-gateway/middleware/rate_limiter_redis.py:31-40 | an admission missing from the set is at least a window older than any gateway's clock |
| RedisLimiter.ScriptIsGreedy | api-gateway/middleware/rate_limiter_redis.py:31-40 | when the gateways' readings do not run back and lie within a second of the server's, the script admits exactly what the full history calls for |
| RedisLimiter.DominatesInMemory | api-gateway/middleware/rate_limiter_redis.py:31-40 | on every trace of gateway readings that do not run back, it has admitted at least as many requests as the in-memory limiter, whatever the server's clock reads and whenever the key expires |
| RedisLimiter.RecordedStaysAhead | api-gateway/middleware/rate_limiter_redis.py:31-40 | on such a trace its k-th admission is never later than the k-th of any selection that respects the quota |
| RedisLimiter.RefusedIsFull | api-gateway/middleware/rate_limiter_redis.py:32-36 | on any trace a refusal means that at least the quota of all recorded admissions still counts, although the set has forgotten the older ones and the key may have expired |
| RedisStore.AdmittedExactly | api-gateway/middleware/rate_limiter_redis.py:31-40 | for every interleaving and every drift of the clocks, a call is admitted if and only if fewer than the quota of the earlier admissions still count: none of the calls since, this one included, found them a window old or met an expired key |
| RedisStore.StoreHoldsExactly | api-gateway/middleware/rate_limiter_redis.py:32-38 | the set holds exactly the admissions that no later call found a window old and no expiry removed, with their scores |
| RedisStore.ExpiresAfterLastAdmission | api-gateway/middleware/rate_limiter_redis.py:37-38 | the key expires a window and a second after its last admission; a refusal does not prolong it |
| RedisLimiter.RedisRateLimiterMiddleware.EvalScript | api-gateway/middleware/rate_limiter_redis.py:31-40 | the four commands on the stored set are the script step, with its answer and its count |
| RedisLimiter.RedisRateLimiterMiddleware.Check | api-gateway/middleware/rate_limiter_redis.py:78-98 | refuses only on an answer of the script; without a client, a script or an answer the request passes, though a lost answer may still have been recorded |
| RedisLimiter.RedisRateLimiterMiddleware.Dispatch | api-gateway/middleware/rate_limiter_redis.py:100-111 | both probe paths bypass the limiter; a refusal advises the whole window |
| Consumer.CommitIsSafe | notifications-service/consumers/notification_consumer.py:104-125 | in every reachable state, with crashes between any two steps, every offset below the committed one was handled within the retry limit, dead-lettered, or dropped with a log entry; the committed offset never goes back and a restart resumes at it |
| ConsumerFates.FatesAreOutcomes | notifications-service/consumers/notification_consumer.py:115-123 | in every run, with crashes and redelivery, each record's fate is that of its last processing, and the dead-letter topic holds exactly the records that failed while its producer was up, in order |
| ConsumerFates.CommittedExactly | notifications-service/consumers/notification_consumer.py:28-55 | below the committed offset a record was handled at its first successful call, else dead-lettered if the producer was up, and dropped if and only if it was not |
| ConsumerFates.NothingDropped | notifications-service/consumers/notification_consumer.py:45-55 | if the dead-letter producer never fails, no committed record is dropped |
| Consumer.StepSafe | search-service/consumers/product_consumer.py:102-122 | each step keeps that, in either copy of the loop |
| Consumer.FirstSuccess | notifications-service/consumers/notification_consumer.py:64-78 | the number of the first successful call within the limit, or none if every call fails |
| Consumer.NoRetriesCommitsUnhandled | notifications-service/consumers/notification_consumer.py:64-78 | with no tries configured, in every run each readable record below the committed offset counted as handled without any call |
| Consumer.UnhandledOnlyWithoutRetries | notifications-service/consumers/notification_consumer.py:111-125 | some run commits a readable record that no handler was called for if and only if no tries are configured |
| Consumer.NullValueBlocks | notifications-service/consumers/notification_consumer.py:28-44 | the committed offset never passes a null value |
| Consumer.NullValueIsTheLimit | notifications-service/consumers/notification_consumer.py:111-125 | from every safe state some run commits everything below an offset if and only if no null value lies between the committed offset and it |
| Consumer.ConsumerLoop.HandleWithRetry | notifications-service/consumers/notification_consumer.py:58-78 | stops at the first success, or reports an error after exactly the configured tries |
| Consumer.ConsumerLoop.PublishDlq | notifications-service/consumers/notification_consumer.py:28-55 | an error of the dead-letter producer loses the record and is swallowed |
| Consumer.ConsumerLoop.ProcessNext | notifications-service/consumers/notification_consumer.py:115-123 | is the step for one record: handled, dead-lettered, dropped, or dead with the loop |
| Consumer.ConsumerLoop.RunBatch | notifications-service/consumers/notification_consumer.py:111-125 | is the run of those steps over the fetched batch and one commit behind its last record, with no commit once the loop has died |
| SearchIndex.RedeliveredEqualsOnce | search-service/consumers/product_consumer.py:102-122 | for every run with crashes and redelivery in which handlers of indexed products get through, once the end of the partition is committed each indexed product holds the stock of its last record, as if every record had been applied once, and nothing else changed |
| StockFlow.IndexEndsWithLatest | products-service/internal/service/product_service.go:119-133 | for every run of writes and overtaking publications, and every run of a consumer with crashes and redelivery that commits all that was published: the index ends with the stock that the update published last reports, which is the table's if and only if the updates written after it add up to 0 |
| StockFlow.IndexFollowsTable | products-service/internal/service/product_service.go:119-133 | if every event was published, in the order of the writes, the index ends with the stock of the table |
| StockFlow.EventsFollowTable | products-service/internal/service/product_service.go:87-133 | in every run of writes and publications, in any order, each event of a product, with the updates written after it, gives the product's stock in the table |
| SearchIndex.RunConsistent | search-service/services/search_service.py:74-86 | in between, products updated since the restart are up to date with it and untouched ones with the committed prefix |
| SearchIndex.ProcessIsHandler | search-service/consumers/product_consumer.py:119-121 | a processed record changes the index as its retried handler does, and counts as handled exactly when that got through |
| SearchIndex.ProductConsumer.UpdateProductStock | search-service/services/search_service.py:74-86 | changes only the stock of one existing document, or raises and changes nothing |
| SearchIndex.ProductConsumer.HandleStockUpdates | search-service/consumers/product_consumer.py:46-51 | raises exactly when the id is absent, the document is missing or the cluster fails |
| SearchIndex.ProductConsumer.HandleWithRetry | search-service/consumers/product_consumer.py:60-77 | the update takes effect at the first call that gets through, once |
| CatalogWalk.CompleteExactly | products-service/internal/service/product_service.go:52-68 | for every page size that the repository honours, in every state that a service without deletions reaches, however its requests overlapped: while nothing is deleted and no other client lists with the same page size, walks through the cached listing return every product of a nonempty catalog, whatever is created, changed or expires meanwhile and whichever deletions of keys fail, if and only if no later page is cached at the start and the first one is not cached from an older catalog |
| CatalogWalk.OnlyEmptyAmidOthers | products-service/internal/service/product_service.go:52-68 | if others may list with the same page size between the reads, walks are sure to be complete if and only if the catalog is empty: in every other state one listing of page 2 before the first read makes some walk lose a product |
| CatalogWalk.MonitorWalkExactly | stock-monitor/internal/monitor/stock_monitor.go:28-47 | for the stock monitor's page size, in coherent states, those of sequential runs with a working cache: if and only if no later page is cached |
| CatalogWalk.LateFillLosesProduct | products-service/internal/service/product_service.go:52-68 | a listing that overlaps a create leaves the stock monitor's first page old, and a product is lost with no later page cached |
| CatalogWalk.BootstrapExactly | search-service/services/catalog_bootstrap.py:23-52 | the bootstrap, alone with its page size, indexes every product of the catalog, if its writes succeed, under the condition for page size 200 and under no other |
| CatalogWalk.HarmlessIsEnough | products-service/internal/service/product_service.go:52-68 | the condition is enough in every state at all, also after deletions |
| CatalogWalk.DeletionsCanHelp | products-service/internal/service/product_service.go:111-117 | a reachable state after deletions in which a later page is cached and still no walk loses anything |
| CatalogWalk.GrownAlways | products-service/internal/service/product_service.go:52-68 | while nothing is deleted every cached page is that page of an earlier catalog, also when listings overlap writes, fill late, and deletions of keys fail or come late |
| Catalog.WalkMissesNothing | products-service/internal/repository/product_repository.go:62-92 | of a service without a cache: a walk that completes while only larger ids are added returns every product that existed when it started |
| Catalog.StillWalkIsTable | products-service/internal/repository/product_repository.go:62-92 | on a table that does not change a walk ends and returns exactly the table, each product once in descending order, if and only if its page size is at most 200 or there are at most 20 rows |
| Catalog.ListDefaults | products-service/internal/repository/product_repository.go:62-69 | pages below 1 mean the first and sizes out of 1..200 mean 20; a page holds its rows of the table, in order, and is short only at the end |
| Catalog.InsertGrows | products-service/internal/repository/product_repository.go:111-125 | adding rows with larger ids is the growth that the walks tolerate |
| Catalog.FetchAll | stock-monitor/internal/monitor/stock_monitor.go:28-47 | whatever the replies, returns the items up to the first page that is not full, or nothing at all if a page fails before it |
| Catalog.BootstrapMissesNothing | products-service/internal/repository/product_repository.go:62-92 | of a service without a cache: at page size 200 the index ends up with every product that existed at the start |
| Catalog.IndexHolds | search-service/services/search_service.py:55-72 | after the writes every item has its document, no document is lost, and every document is an old one or an item under its own id |
| Catalog.IndexHasLatest | search-service/services/search_service.py:55-72 | a product's document is the last one written for it |
| Catalog.SearchService.IndexProduct | search-service/services/search_service.py:55-72 | upserts one document; a refused write changes nothing and raises exactly in strict mode |
| Catalog.SearchService.Bootstrap | search-service/services/catalog_bootstrap.py:15-59 | writes every item that the walk collects, in order, also those before a failed page |
| CacheAside.AlwaysCoherent | products-service/internal/service/product_service.go:49-146 | after any sequence of operations and expiries every cached item, and each cached listing (1,20), (1,50), (1,100), equals the store's content under the repository's page normalisation |
| CacheAside.DoCoherent | products-service/internal/service/product_service.go:135-146 | each operation keeps that |
| CacheAside.OnlyWatchedNeverStale | products-service/internal/service/product_service.go:135-146 | a listing can never be stale if and only if it is (1,20), (1,50) or (1,100) |
| CatalogTable.CreateAdds | products-service/internal/service/product_service.go:87-100 | a valid request adds one product with its fields under a fresh id and announces it; an invalid one changes nothing |
| CatalogTable.UpdatePatches | products-service/internal/repository/product_repository.go:127-152 | a patch of a known product replaces the given fields of that row and nothing else |
| CatalogTable.DeleteRemoves | products-service/internal/repository/product_repository.go:154-163 | a deletion removes that row and no other |
| CatalogTable.StockChangesConditionally | products-service/internal/repository/product_repository.go:165-183 | a stock change is the conditional update that the orders' decrements are, accepted and announced if and only if the product exists and keeps a stock of at least 0, and otherwise without effect |
| CatalogTable.NeverNegative | products-service/internal/repository/product_repository.go:171-171 | whatever is asked, no product's stock and no stock announced is ever negative |
| CatalogTable.FetchReads | products-service/internal/service/product_service.go:70-85 | in a coherent state a fetch answers from the table and caches exactly what it found |
| CatalogTable.ListReads | products-service/internal/service/product_service.go:52-68 | in a coherent state the three watched listings answer from the table and are cached |
| CatalogTable.ReadAfterWrite | products-service/internal/service/product_service.go:102-109 | after an accepted patch a fetch returns the patched product, and fetches of others what they returned before |
| CatalogTable.OtherEntriesStay | products-service/internal/service/product_service.go:135-146 | an operation drops no cached entry but its own product's, the three listings, and what runs out |
| CacheAside.CachedPageHidesProduct | products-service/internal/service/product_service.go:52-68 | with page 2 of a 100-row catalog cached, one create makes a page walk through the service complete without a product that exists throughout |
| CacheAside.IndexOf | products-service/internal/repository/product_repository.go:94-109 | the first row with that id, or the end |
| CacheAside.Patched | products-service/internal/repository/product_repository.go:127-152 | a patch replaces exactly the fields it gives and never a product's id, seller or stock |
| CacheAside.ValidateCreate | products-service/internal/service/product_service.go:148-162 | a request is accepted if and only if it names a seller and a title and neither price nor stock is negative; otherwise the first check that fails names the refusal |
| CacheAside.ProductService.InvalidateKeys | products-service/internal/service/product_service.go:135-146 | deletes the three listings, and the item when there is an id |
| CacheAside.ProductService.ListProducts | products-service/internal/service/product_service.go:52-68 | serves the cached page, or the table's page and caches it |
| CacheAside.ProductService.GetProduct | products-service/internal/service/product_service.go:70-85 | serves the cached item, or the row and caches it; a missing row is not cached |
| CacheAside.ProductService.CreateProduct | products-service/internal/service/product_service.go:87-100 | refuses an invalid request without effect, or adds the row under the next id, invalidates and announces the product |
| CacheAside.ProductService.UpdateProduct | products-service/internal/repository/product_repository.go:127-152 | replaces only the fields that are given, keeps the row's place, and invalidates |
| CacheAside.ProductService.DeleteProduct | products-service/internal/service/product_service.go:111-117 | removes the row and invalidates, or reports that it is missing |
| CacheAside.ProductService.ChangeStock | products-service/internal/service/product_service.go:119-133 | applies a delta that leaves the stock at or above 0, invalidates and announces the new stock; refuses 0; otherwise changes nothing |
| CacheStaleness.BoundedStaleness | products-service/internal/service/product_service.go:52-85 | in every interleaving of readers and writers, also when deletions and fills fail, a served value was the store's value less than TTL plus the filling reader's own delay ago |
| CacheStaleness.InvalidationWorksExactly | products-service/internal/service/product_service.go:102-109 | after a write and its working invalidation, every continuation without writes serves only the written value if and only if every reader in flight holds it already |
| CacheStaleness.LateFillOutlivesInvalidation | products-service/internal/service/product_service.go:70-85 | a reader that read before a write and fills after its working invalidation leaves the old value served |
| Payments.OverlapBound | payments-service/routes/payment_routes.py:34-63 | in every interleaving, with crashes anywhere, a key is charged at most once per request that looked it up before it was first stored |
| Payments.StoredForGood | payments-service/services/idempotency_service.py:29-49 | once stored, a key is never overwritten, and no later request can miss it |
| Payments.ReplaysAgree | payments-service/routes/payment_routes.py:35-44 | all replays of a key return one payment, which is a committed charge of that key with the body they all sent |
| Payments.StepInv | payments-service/routes/payment_routes.py:34-63 | each step keeps the invariant behind these |
| Payments.ChargesAreDecided | payments-service/services/payment_service.py:23-40 | in every interleaving each committed payment is of its request's body, with a positive amount, and FAILED if and only if that is at least 100000 |
| Payments.PaymentsAreNumbered | payments-service/services/payment_service.py:46-53 | payments are numbered as they are committed |
| Payments.SerialChargesOnce | payments-service/routes/payment_routes.py:34-63 | without overlap or crash a key of at most 120 characters is charged exactly once if it was ever stored and otherwise never; a longer one is never stored and charged by every request that is not refused |
| Payments.SerialChargesOnceExactly | payments-service/models/idempotency.py:16-17 | whatever requests come one after the other, a key is charged at most once if and only if it has at most 120 characters |
| Payments.SerialReplay | payments-service/routes/payment_routes.py:34-44 | after a request was processed, the same body replays its response and another body is refused; neither changes anything and the key stays charged once |
| PaymentAnswers.AnswerExactly | payments-service/routes/payment_routes.py:25-63 | each answer in a series of requests that do not overlap, told from the requests alone: a replay of the first request that used the key, a refusal of another body or of an amount that is not positive, an unhandled error for a key that cannot be stored, or the next payment, decided by its amount |
| Payments.ServeIsSchedule | payments-service/routes/payment_routes.py:31-63 | the undisturbed request is one schedule of the interleaved system |
| Payments.OneChargePerMiss | payments-service/routes/payment_routes.py:34-63 | in every interleaving, with crashes anywhere, the charges of a key are as many as the requests that looked it up before it was first stored and went on to charge |
| Payments.ChargedOnceExactly | payments-service/models/idempotency.py:9-13 | when none of those requests is refused, waiting or dead before its charge, the key is charged at most once if and only if there is at most one of them |
| Payments.DuplicateChargedUnlessAfterStore | payments-service/models/idempotency.py:9-13 | runs of two identical requests that break the promise: the second looks the key up before the first has stored it, or the key cannot be stored |
| Payments.CrashBeforeStoreChargesTwice | payments-service/routes/payment_routes.py:46-61 | a crash between charge and store makes a retry charge again |
| Payments.PaymentRoutes.CreatePayment | payments-service/services/payment_service.py:43-72 | refuses an amount that is not positive without a row; otherwise commits exactly one decided payment and announces its outcome |
| Payments.PaymentRoutes.StoreResponse | payments-service/services/idempotency_service.py:29-49 | only the first writer of a key has an effect; a key longer than its column raises and stores nothing |
| Payments.PaymentRoutes.Create | payments-service/routes/payment_routes.py:25-63 | is the undisturbed request of the step system: replay, conflict, refusal, charge and store, or a charge whose store fails; exactly the charges are announced |

## Left out

- Transactions: each transactional method is one atomic step; in particular the status update, an unversioned read-modify-write, is taken to be atomic.
- Clocks and arithmetic: time and prices are reals, ids and counts unbounded integers; float rounding, the rounding that Lua applies to the purge bound, and page offsets beyond 64 bits are not modelled.
- Premises: the limiters' quota is at least 1 where the code reads the head of a full deque, the consumer's retry limit at least 1 where a theorem says so, the batch size of the worker at least 1, and scores are not negative.
- RateLimiter.BucketAnswers: needs a clock that does not run backwards; RateLimiterClock has the quota on one that does.
- `_client_key`: how a request is assigned to a key, and forwarding headers that share one.
- Redis losing its script cache after the hash was taken: from then on every call fails, and the limiter stays open.
- OutboxProgress.BoundedProgress: needs new rows to be created strictly later than the row in question; the creation time is read by the application, so an order committed late with an earlier time can get ahead of it. Drains that abort are not counted, as they count no attempt.
- OrdersService.OrdersService.Drain: the order of the futures' completion is not modelled, only what each one yields; records of one drain enter the log in send order.
- Catalog.WalkMissesNothing: reads straight from the table; CatalogWalk has the walks through the cache.
- CatalogWalk.CompleteExactly: between the reads nothing is deleted, as a deletion alone can make a walk miss rows, and nobody else lists with the same page size or fills such a page late (CatalogWalk.OnlyEmptyAmidOthers is about walks amid other listings). Its converse needs that nothing was deleted before either.
- CacheAside.AlwaysCoherent: operations do not overlap and cache commands work there; the other runs are covered by CacheStaleness, which follows one key.
- CacheAside.OnlyWatchedNeverStale: likewise holds of operations that do not overlap and a cache that works; a late fill or a failed deletion makes a watched listing stale as well.
- SearchIndex.RedeliveredEqualsOnce: stock updates only. The product-created topic writes whole documents, and a redelivered one can put an older stock back until the next update.
- StockFlow.IndexEndsWithLatest: the products' documents are taken to be indexed, with their stock at creation, before the updates.
- Payments: the fingerprint is taken to be injective on bodies, and the stored response body to be the payment itself; request validation before the route and the processing delay are not modelled; a store that fails for another reason than the key's length or uniqueness acts as a crash before it.
- Causality: an event's payload is reduced to its kind and order id.
- StockSaga: whether the HTTP library can send a PATCH at all. The client's request factory (`ProductsClient.kt:38`) wraps a connection class that is documented to refuse that method with an I/O error, in which case no decrement ever reaches the service; the model takes every outcome of an attempt as possible.
- StockSaga: an open circuit breaker is an outcome that is not retried; reconciling lost or repeated decrements is not part of this model.
- One partition per consumer, contiguous offsets, no rebalancing; the waiting time between retries.
- Kafka, MySQL, Postgres, Redis and Elasticsearch themselves: append-only logs, tables, sorted sets and maps.
- HTTP proxying, authentication, users, carts, notification texts, full-text search, metrics, tracing and the web client.
- `LowStock`, `getById`, `findByBuyer` and the list filters: true but easy.
- Row timestamps of products and payments.
