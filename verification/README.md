# resilient_purchase — a verified model of the order core

resilient_purchase is a Kotlin/Spring service that shows what happens to a
product's stock when many orders arrive at once. It offers three order
strategies:

- **no-lock** reads the product, checks the stock and writes it back, with nothing holding those steps together.
- **lock** runs the whole order under the lock of the one service instance.
- **pessimistic** reads the row for update inside a transaction.

Around these strategies are the following pieces:

- a selector that picks a strategy from a method string;
- an executor that fires a burst of order attempts and counts successes and failures;
- two experiment endpoints that report whether the counts reconcile with the stock left;
- a demo that sells one unit of a shared counter through a per-instance lock and through a lock shared by all instances.

This project models that core in Dafny. It is laid out as follows:

- **The product table** is a class holding a map from id to product (`Repository.ProductRepository`).
- **The order step** the three strategies share is one pure function, `OrderLogic.PlaceOrder`:
  - look the product up;
  - fail with `NotFound` if it is missing;
  - fail with `InsufficientStock` when `stock < quantity`;
  - otherwise save `stock - quantity` and return the new stock.
- **Each service** is a class whose `Order` method is proved equal to that function.
- **The unsynchronised order** is also written as its two halves. The read-and-check is `ReadAndCheck` / `ReadForOrder`. The write of the snapshot less the quantity is `WriteSnapshot` / `WriteBack`. Module `LostUpdate` interleaves those halves step by step over any schedule.
- **The locked strategies** are modelled as atomic method calls. That is what the instance lock and the row lock buy.
- **The executor** runs its attempts one after the other. Its loop is proved against the recursive `OrderLogic.RunSerial`.
- **Conservation, the success count and the experiment checks** are proved about `RunSerial`. Conservation is `successes * q + remaining == initial`, with `remaining >= 0`. The success count is `min(n, S / q)`.
- **The demo counter** is a class shared by reference. The per-instance lock's `order()` is split into its check, and the read and the write of its decrement, so the overlapping schedules can be written down. The shared lock's `order()` is atomic.

Notes on the code's behaviour:

- **Zero threads.** A thread count of 0 or less does not yield an empty result: `newFixedThreadPool` refuses a pool size below 1, and `CountDownLatch` also refuses a negative count (ConcurrencyTestExecutor.kt:22-23). `Executor.ExecuteConcurrentOrders` returns `Err(InvalidRequest)` and changes nothing.
- **No negative stock for no-lock.** The unsynchronised strategy cannot drive the stock negative. Each write stores the snapshot it read less the quantity, and the snapshot passed the check `stock >= quantity`. What the race loses are decrements (lost updates), never the floor. `LostUpdate.NoLockBounds` proves the stock stays at or above 0 once a call has written, and at or above `S - successes * q` always.

## Model

| member | source | states |
|---|---|---|
| OrderLogic.ReadForOrder | src/main/kotlin/com/example/resilient_purchase/service/NoLockOrderService.kt:12-13 | the lookup succeeds exactly when the product exists and holds at least `quantity`, returning the stored row; NotFound exactly when it is missing; InsufficientStock exactly when its stock is below `quantity` |
| OrderLogic.WriteBack | src/main/kotlin/com/example/resilient_purchase/service/NoLockOrderService.kt:15-16 | the saved row is the snapshot with stock `snapshot.stock - quantity` (from the snapshot, not the current row), same id and name; every other row is untouched; keying is preserved |
| OrderLogic.PlaceOrder | src/main/kotlin/com/example/resilient_purchase/service/LockOrderService.kt:10-27 | missing product gives NotFound and short stock gives InsufficientStock (both iff), and the order succeeds iff the product exists with enough stock, with the table unchanged on any error; on success the stock drops by exactly `quantity`, the receipt has success=true, echoes the method and reports the stored stock, the name is kept; other products never change; a non-negative stock never becomes negative |
| OrderLogic.ResetStock | src/main/kotlin/com/example/resilient_purchase/service/LockOrderService.kt:29-35 | an existing product gets exactly the given stock and keeps its name; a missing id leaves the table equal to the old one; other rows untouched |
| OrderLogic.ResetIdempotent | src/main/kotlin/com/example/resilient_purchase/service/NoLockOrderService.kt:20-30 | resetting twice equals resetting once; afterwards the stock reads back as the value given on an existing id, and as absent on a missing one |
| OrderLogic.RunSerial | src/main/kotlin/com/example/resilient_purchase/service/ConcurrencyTestExecutor.kt:44-67 | n serial attempts are each counted once: successes + failures == n; only the targeted row can change and no row appears or disappears |
| OrderLogic.OrderOnTarget | src/main/kotlin/com/example/resilient_purchase/service/LockOrderService.kt:14-20 | one order on an existing product succeeds iff `quantity <= stock`, and leaves `stock - quantity` or the stock unchanged accordingly |
| OrderLogic.SerialIsCountdown | src/main/kotlin/com/example/resilient_purchase/service/LockOrderService.kt:14-20 | the serial run, seen through the targeted product, is the integer countdown: same successes, same stock left |
| OrderLogic.SerialNext | src/main/kotlin/com/example/resilient_purchase/service/ConcurrencyTestExecutor.kt:44-48 | proof step only: unfolds `RunSerial` once (n+1 attempts are n attempts and one order step, counted by its outcome), so the executor loop can carry its invariant |
| OrderLogic.SerialMissing | src/main/kotlin/com/example/resilient_purchase/service/ConcurrencyTestExecutor.kt:60-64 | attempts against a missing product all fail and leave the table unchanged |
| OrderLogic.CountdownConserves | src/test/kotlin/com/example/resilient_purchase/concurrency/LockConcurrentTest.kt:59-63 | every counted success took exactly `quantity`: `done * q + left == s`, and a non-negative start never goes negative |
| OrderLogic.SerialConserves | src/test/kotlin/com/example/resilient_purchase/PessimisticLockConcurrentTest.kt:63-67 | for atomic attempts `successes * q + remaining == initial`, and `remaining >= 0` when the initial stock is |
| OrderLogic.CountStep | src/main/kotlin/com/example/resilient_purchase/service/LockOrderService.kt:14 | after `done <= s/q` successes the stock left admits another order exactly when `done < s/q` |
| OrderLogic.CountdownCount | src/main/kotlin/com/example/resilient_purchase/service/LockOrderService.kt:14-20 | from stock s >= 0 with q >= 1, n attempts succeed exactly `min(n, s / q)` times |
| OrderLogic.SerialSuccessCount | src/main/kotlin/com/example/resilient_purchase/service/LockOrderService.kt:14-20 | an atomic run from S >= 0 with q >= 1 has exactly `min(n, S / q)` successes and leaves `S - successes * q` |
| Repository.ProductRepository.FindById | src/main/kotlin/com/example/resilient_purchase/repository/ProductRepository.kt:12 | the stored row is returned iff its id is present |
| Repository.ProductRepository.Save | src/main/kotlin/com/example/resilient_purchase/repository/ProductRepository.kt:12 | saving a loaded row replaces exactly that row; the table stays keyed |
| Repository.ProductRepository.Insert | src/main/kotlin/com/example/resilient_purchase/domain/Product.kt:7-15 | a new row gets the next identity, which was not in use, and the identity counter advances |
| NoLockOrders.NoLockOrderService.ReadAndCheck | src/main/kotlin/com/example/resilient_purchase/service/NoLockOrderService.kt:12-13 | the read half returns exactly what `ReadForOrder` gives on the current table |
| NoLockOrders.NoLockOrderService.WriteSnapshot | src/main/kotlin/com/example/resilient_purchase/service/NoLockOrderService.kt:15-17 | the write half saves the snapshot less the quantity (`WriteBack`) and reports the stored stock with success=true and the method |
| NoLockOrders.NoLockOrderService.Order | src/main/kotlin/com/example/resilient_purchase/service/NoLockOrderService.kt:10-18 | run back to back, the two halves are `PlaceOrder`: same result, same table |
| NoLockOrders.NoLockOrderService.ResetStock | src/main/kotlin/com/example/resilient_purchase/service/NoLockOrderService.kt:20-26 | the table becomes `ResetStock` of the old one |
| NoLockOrders.NoLockOrderService.CurrentStock | src/main/kotlin/com/example/resilient_purchase/service/NoLockOrderService.kt:28-30 | the stored stock iff the product exists, otherwise NoSuchElement |
| LockOrders.LockOrderService.Order | src/main/kotlin/com/example/resilient_purchase/service/LockOrderService.kt:9-27 | the atomic order equals `PlaceOrder`: same result, same table |
| LockOrders.LockOrderService.ResetStock | src/main/kotlin/com/example/resilient_purchase/service/LockOrderService.kt:29-35 | the table becomes `ResetStock` of the old one |
| LockOrders.LockOrderService.CurrentStock | src/main/kotlin/com/example/resilient_purchase/service/LockOrderService.kt:37-39 | the stored stock iff the product exists, otherwise NoSuchElement |
| PessimisticOrders.PessimisticLockOrderService.Order | src/main/kotlin/com/example/resilient_purchase/service/PessimisticLockOrderService.kt:12-29 | the order under the row lock equals `PlaceOrder`: same result, same table |
| PessimisticOrders.PessimisticLockOrderService.ResetStock | src/main/kotlin/com/example/resilient_purchase/service/PessimisticLockOrderService.kt:31-37 | the table becomes `ResetStock` of the old one |
| PessimisticOrders.PessimisticLockOrderService.CurrentStock | src/main/kotlin/com/example/resilient_purchase/service/PessimisticLockOrderService.kt:39-43 | the stored stock iff the product exists, otherwise NotFound |
| ServiceSelection.Select | src/main/kotlin/com/example/resilient_purchase/service/OrderServiceSelector.kt:18-24 | "no-lock" selects the unsynchronised strategy and "pessimistic" the row lock, each iff; every other string selects the instance lock |
| ServiceSelection.EffectiveMethod | src/main/kotlin/com/example/resilient_purchase/api/OrderController.kt:17-18 | a given method is passed on unchanged; a missing one becomes exactly "lock", which selects the instance lock |
| ServiceSelection.OrderServiceSelector.Dispatch | src/main/kotlin/com/example/resilient_purchase/service/OrderServiceSelector.kt:18-24 | whichever strategy is chosen, one call is the order step `PlaceOrder` |
| Executor.PoolSize | src/main/kotlin/com/example/resilient_purchase/service/ConcurrencyTestExecutor.kt:12-23 | the pool has `min(threads, 50)` workers: at most 50, at most `threads`, at least 1 for a positive count |
| Executor.ExecuteOrder | src/main/kotlin/com/example/resilient_purchase/service/ConcurrencyTestExecutor.kt:51-68 | one attempt is the order step; it adds one to the success count iff the order returned and one to the failure count iff it raised, whatever the error |
| Executor.SubmitOrderTasks | src/main/kotlin/com/example/resilient_purchase/service/ConcurrencyTestExecutor.kt:33-49 | `threads` attempts with the same product, quantity and method leave exactly the counts and table of `RunSerial` |
| Executor.ExecuteConcurrentOrders | src/main/kotlin/com/example/resilient_purchase/service/ConcurrencyTestExecutor.kt:15-31 | a count below 1 is refused with the table unchanged; otherwise the result is reported after all attempts, equals `RunSerial`'s counts, and successes + failures == threads |
| LostUpdate.Advance | src/main/kotlin/com/example/resilient_purchase/service/NoLockOrderService.kt:12-16 | one step of an unsynchronised call, its read-and-check or its write of the snapshot less the quantity; the counters never go down and a read starts exactly one call (its meaning is carried by `AdvanceKeepsInv` and `NoLockBounds`) |
| LostUpdate.Interleave | src/main/kotlin/com/example/resilient_purchase/service/ConcurrencyTestExecutor.kt:44-48 | a burst of unsynchronised calls as a schedule of such steps; the success and failure counters never go down (its meaning is carried by `InterleaveKeepsInv`, `InterleaveAccounts` and `NoLockBounds`) |
| LostUpdate.AdvanceKeepsInv | src/main/kotlin/com/example/resilient_purchase/service/NoLockOrderService.kt:12-16 | one read or one write of an unsynchronised call keeps the race invariant (stock and every pending snapshot between `S - successes*q` and S, stock in [0, S-q] after a success, other rows untouched) |
| LostUpdate.InterleaveKeepsInv | src/main/kotlin/com/example/resilient_purchase/service/NoLockOrderService.kt:12-16 | every schedule keeps the race invariant |
| LostUpdate.InterleaveAccounts | src/main/kotlin/com/example/resilient_purchase/service/ConcurrencyTestExecutor.kt:60-64 | every started call ends as a success, a failure or a pending write: none is lost or counted twice |
| LostUpdate.NoLockBounds | src/test/kotlin/com/example/resilient_purchase/NoLockConcurrentTest.kt:48-51 | in any interleaving from stock S with q >= 1 the stock is at least `S - successes*q`; after a success it is in [0, S - q], so below S; calls are all accounted; other products unchanged |
| LostUpdate.InterleaveCons | src/main/kotlin/com/example/resilient_purchase/service/NoLockOrderService.kt:12-16 | proof step only: unfolds `Interleave` once for a schedule written as its first step and the rest |
| LostUpdate.CheckThenWriteIsOrder | src/main/kotlin/com/example/resilient_purchase/service/NoLockOrderService.kt:11-18 | a read immediately followed by its write is one `PlaceOrder`: same table, one call counted, a success iff the order succeeds |
| LostUpdate.TwoReadsBeforeWrites | src/main/kotlin/com/example/resilient_purchase/service/NoLockOrderService.kt:12-16 | two calls that both read stock s >= q before either writes both succeed, yet the stock ends at s - q: expected decrease 2q exceeds the actual q |
| LockDemo.DemoRun | src/main/kotlin/com/example/resilient_purchase/demo/GlobalLockDemoService.kt:9-18 | k serialised `order()` calls: at most k succeed and each success takes exactly one unit (the exact count is carried by `SerialDemoCalls`) |
| LockDemo.DemoOrder | src/main/kotlin/com/example/resilient_purchase/demo/GlobalLockDemoService.kt:11-16 | one uninterrupted `order()` succeeds iff stock > 0, then takes exactly one unit, otherwise none; a non-negative stock stays non-negative |
| LockDemo.SerialDemoCalls | src/main/kotlin/com/example/resilient_purchase/demo/GlobalLockDemoService.kt:10-16 | k serialised calls from S >= 0 succeed `min(k, S)` times and leave `S - min(k, S) >= 0` |
| LockDemo.LocalLockDemoService.CheckStock | src/main/kotlin/com/example/resilient_purchase/demo/LocalLockDemoService.kt:7-9 | the check passes iff the shared stock is positive |
| LockDemo.LocalLockDemoService.ReadStock | src/main/kotlin/com/example/resilient_purchase/demo/LocalLockDemoService.kt:12 | the read half of `stock -= 1` returns the counter's current value |
| LockDemo.LocalLockDemoService.WriteDecrement | src/main/kotlin/com/example/resilient_purchase/demo/LocalLockDemoService.kt:12 | the write half of `stock -= 1` stores one less than the value read, whatever the counter holds by now |
| LockDemo.LocalLockDemoService.Order | src/main/kotlin/com/example/resilient_purchase/demo/LocalLockDemoService.kt:5-13 | check then decrement with nothing between is `DemoOrder` |
| LockDemo.GlobalLockDemoService.Order | src/main/kotlin/com/example/resilient_purchase/demo/GlobalLockDemoService.kt:9-18 | the atomic `order()` is `DemoOrder` |
| ExperimentApi.CheckInvariant | src/main/kotlin/com/example/resilient_purchase/api/ConcurrencyExperimentController.kt:70-72 | the check passes exactly when nothing is negative and the stock gone is exactly `successCount * quantity` (its consequences: `NegativeRemainingFails`, `LockedRunPassesCheck`) |
| ExperimentApi.BuildExperimentResult | src/main/kotlin/com/example/resilient_purchase/api/ConcurrencyExperimentController.kt:74-91 | the result echoes method, initial stock, threads and quantity from the request and passes the counts, the stock left and the check's verdict through unchanged |
| ExperimentApi.NegativeRemainingFails | src/main/kotlin/com/example/resilient_purchase/api/ConcurrencyExperimentController.kt:70-72 | a negative remaining stock makes `checkInvariant` false whatever the counts |
| ExperimentApi.LockedRunPassesCheck | src/main/kotlin/com/example/resilient_purchase/api/ConcurrencyExperimentController.kt:31-39 | an atomic run from a non-negative stock always passes `checkInvariant` |
| ExperimentApi.SelectOrderService | src/main/kotlin/com/example/resilient_purchase/api/ConcurrencyExperimentController.kt:57-63 | the controller's own selection agrees with `OrderServiceSelector.select` on every string |
| ExperimentApi.ConcurrencyExperimentController.CreateExperimentProduct | src/main/kotlin/com/example/resilient_purchase/api/ConcurrencyExperimentController.kt:48-55 | a fresh product, id not in use before, named "experiment-" + method, with the requested stock, is added, the identity counter advances by one, and nothing else changes |
| ExperimentApi.ConcurrencyExperimentController.RunExperiment | src/main/kotlin/com/example/resilient_purchase/api/ConcurrencyExperimentController.kt:29-46 | creates the product (the identity counter advances by one), then a count below 1 is refused; otherwise the result echoes method, initial stock, threads and quantity and passes through `RunSerial`'s counts and stock left with their `checkInvariant`; successes + failures == threads; for any method other than "no-lock", from a non-negative stock the invariant holds and successes == `min(threads, S / q)` |
| UiApi.BuildExperimentResult | src/main/kotlin/com/example/resilient_purchase/api/UiController.kt:105-128 | expected decrease is the success count (one unit per order), actual decrease is initial minus remaining, and the ghost flag is up exactly when the successes claim more units than left the stock; the other fields are echoed |
| UiApi.FlagAndConservation | src/main/kotlin/com/example/resilient_purchase/api/UiController.kt:113-115 | conservation rules a ghost success out; the converse fails (10 → 5 with no success keeps the flag down) |
| UiApi.LockedRunHasNoGhostSuccess | src/main/kotlin/com/example/resilient_purchase/api/UiController.kt:113-115 | an atomic run never raises the ghost flag, from any starting stock |
| UiApi.NoLockFlagIsExact | src/main/kotlin/com/example/resilient_purchase/api/UiController.kt:113-115 | in any unsynchronised interleaving the actual decrease never exceeds the expected one, so the flag is down exactly when they are equal |
| UiApi.LostUpdateRaisesFlag | src/main/kotlin/com/example/resilient_purchase/api/UiController.kt:113-115 | two one-unit orders that both read before either writes raise the ghost flag |
| UiApi.UiController.ResetStock | src/main/kotlin/com/example/resilient_purchase/api/UiController.kt:41-57 | a negative stock is refused and a missing target is an error, both with the table unchanged; otherwise the target's stock becomes the value given and the response reports it |
| UiApi.UiController.CurrentStock | src/main/kotlin/com/example/resilient_purchase/api/UiController.kt:59-70 | the target's stock iff it exists, otherwise the missing-target error |
| UiApi.UiController.RunExperiment | src/main/kotlin/com/example/resilient_purchase/api/UiController.kt:72-103 | a count below 1 is refused, then a missing target; otherwise one-unit attempts through the selected strategy give `RunSerial`'s table and a result built from the initial stock, its counts and the stock left; successes + failures == threads; the actual decrease never exceeds the expected one; through a locking strategy no ghost success, and from S >= 0 exactly `min(threads, S)` successes and `S - successes` left |
| UiApi.UiController.RunLocalLockExperiment | src/main/kotlin/com/example/resilient_purchase/api/UiController.kt:148-159 | after resetting the counter, two per-instance-locked orders in sequence give `DemoRun` of two calls; with both checks first, from a positive stock both succeed and two units go, or only one when both decrements read the counter before either writes; at most 2 successes |
| UiApi.UiController.RunGlobalLockExperiment | src/main/kotlin/com/example/resilient_purchase/api/UiController.kt:161-172 | after resetting the counter, two shared-lock orders in either order give `DemoRun` of two calls; at most 2 successes |
| UiApi.UiController.LockConceptDemo | src/main/kotlin/com/example/resilient_purchase/api/UiController.kt:130-146 | from stock 1 the shared lock sells once and leaves 0; the per-instance lock does the same unless both checks pass first, when it sells twice and leaves -1, or 0 when both decrements read before either writes; outside that last schedule successes + final stock == 1; the counter is left as the shared-lock run left it |

## Left out

- Threads, the worker pool, `CountDownLatch`, `AtomicInteger`, `@Synchronized`/`synchronized` and `Thread.sleep` are not modelled as such. Locked calls are atomic method calls, and the executor runs its attempts one after the other. Unsynchronised orders are interleaved explicitly only in module `LostUpdate`, and the demo's per-instance lock through the `DemoSchedule` choices. The model does not claim that the anomalies always occur.
- Executor.ExecuteConcurrentOrders: runs the attempts serially, so for the no-lock strategy it states the outcome of the schedule without overlap only. Overlapping schedules are covered by `LostUpdate.NoLockBounds` instead.
- UiApi.UiController.RunExperiment: its result equals the serial run for every method. For "no-lock" the program can report ghost successes; the contract promises no ghost success and the `min(threads, S)` count only through a locking strategy. For "no-lock" it promises what holds in every interleaving: the actual decrease never exceeds the expected one (`UiApi.NoLockFlagIsExact`, `UiApi.LostUpdateRaisesFlag`).
- ExperimentApi.ConcurrencyExperimentController.RunExperiment: its result equals the serial run for every method. For "no-lock" the program can fail `checkInvariant`, so `invariantHolds` and the `min(threads, S / q)` count are promised only for the other methods.
- ExperimentApi.ConcurrencyExperimentController.RunExperiment: reads the remaining stock fresh from the stored table. The source's `getRemainingStock` (ConcurrencyExperimentController.kt:66-68) does not call `entityManager.clear()` before `findById`, as the UI controller does (UiController.kt:98-99). With Spring's open-in-view setting on, the request's persistence context may still hold the entity saved by `createExperimentProduct`, and the read may then return its initial stock. The model does not capture that stale read, so its `invariantHolds` for the locking methods assumes the read sees the stock the attempts left.
- UiApi.UiController.RunLocalLockExperiment: takes one of four named schedules (two serial orders, both checks first with whole decrements, both checks and both reads first). Other orders of the check, read and write steps of the two threads are not enumerated.
- UiApi.UiController.LockConceptDemo: inherits the four named schedules of `RunLocalLockExperiment` for the per-instance lock.
- PessimisticOrders.PessimisticLockOrderService.Order: the wait for the row lock taken by `findByIdForUpdate` is modelled as unbounded. A database gives up such a wait after its own lock timeout, and the executor then counts that attempt as a failure with the stock unchanged. The model has no timeout failure, so the `min(threads, S / q)` success counts stated for "pessimistic" (`ExperimentApi.ConcurrencyExperimentController.RunExperiment`, `UiApi.UiController.RunExperiment`) assume no lock wait times out. Conservation is unaffected, because a timed-out attempt changes nothing.
- JPA and Spring persistence are replaced by the in-memory map. This covers `@Transactional`, the `PESSIMISTIC_WRITE` read (modelled as the atomicity of the order), the UI controller's `entityManager.clear()` before it reads the final stock, and the identity column (modelled as a counter).
- HTTP routing, `ResponseEntity`, the exception-to-status mapping and bean validation are left out. Exceptions become `Err` values of `Domain.Error`.
- Kotlin's 32-bit `Int` overflow is not modelled. Stocks, counts and `successCount * quantity` are mathematical integers.
- The identical DTO classes under `api/` and `dto/` are modelled once each.
- `DemoSharedStock`: the demo services' shared `stock` counter (package `demo`). It is modelled as one mutable integer shared by every demo service, as `LockDemo.DemoSharedStock`.
- The failure branch of the UI's `getFinalStock` (product vanished during a run) is not modelled. The attempts never remove a product, so the branch cannot be taken.
- LostUpdate.NoLockBounds: states its bounds for quantity >= 1 only. The experiment endpoint does not validate the quantity it passes to the executor; with a quantity of 0 or less a success does not lower the stock, and the bound after a success (`S - q < S`) does not hold.
- OrderLogic.SerialConserves: speaks of the targeted product's stock only. That other rows are untouched is stated by `OrderLogic.RunSerial`.
