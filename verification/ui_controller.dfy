/** The UI endpoints: reset and read the stock of the fixed target product,
    run a burst of one-unit orders against it and report whether any success
    is a ghost (a success whose unit never left the stock), and the demo that
    contrasts a per-instance lock with a lock shared by all instances. */
module UiApi {
  import opened Domain
  import opened OrderLogic
  import opened Repository
  import opened ServiceSelection
  import opened Executor
  import opened LockDemo
  import opened LostUpdate

  /** The product every UI experiment works on. */
  const TargetProductId := 1

  /** Every UI order takes one unit. */
  const QuantityPerOrder := 1

  datatype StockResponse = StockResponse(productId: int, stock: int)

  datatype RunExperimentResult =
    RunExperimentResult(methodName: string, initialStock: int, threads: int,
                        successCount: int, failureCount: int, remainingStock: int,
                        expectedDecrease: int, actualDecrease: int, hasGhostSuccess: bool)

  datatype LockConceptDemoResponse =
    LockConceptDemoResponse(initialStock: int, localLockSuccessCount: int, localLockFinalStock: int,
                            globalLockSuccessCount: int, globalLockFinalStock: int)

  /** `buildExperimentResult`: the stock the successes should have taken,
      the stock that actually went, and the ghost-success flag, raised
      exactly when the successes claim more units than left the stock. */
  function BuildExperimentResult(methodName: string, initialStock: int, threads: int,
                                 successCount: int, failureCount: int, remainingStock: int)
    : (r: RunExperimentResult)
    ensures r.methodName == methodName && r.initialStock == initialStock && r.threads == threads
    ensures r.successCount == successCount && r.failureCount == failureCount
    ensures r.remainingStock == remainingStock
    ensures r.expectedDecrease == successCount
    ensures r.actualDecrease + remainingStock == initialStock
    ensures r.hasGhostSuccess <==> successCount + remainingStock > initialStock
  {
    var expectedDecrease := successCount * QuantityPerOrder;
    var actualDecrease := initialStock - remainingStock;
    RunExperimentResult(methodName, initialStock, threads, successCount, failureCount, remainingStock,
                        expectedDecrease, actualDecrease, expectedDecrease > actualDecrease)
  }

  /** Conservation (`successCount + remaining == initialStock`) rules a
      ghost success out, but a lowered flag does not give conservation back:
      a run that lost more stock than its successes took also keeps the flag
      down. */
  lemma FlagAndConservation(successCount: int, failureCount: int, remainingStock: int, initialStock: int)
    ensures successCount + remainingStock == initialStock ==>
              !BuildExperimentResult("", initialStock, 0, successCount, failureCount, remainingStock).hasGhostSuccess
    ensures var r := BuildExperimentResult("", 10, 1, 0, 1, 5);
            !r.hasGhostSuccess && r.successCount + r.remainingStock != r.initialStock
  {
  }

  /** A run in which every attempt is atomic never reports a ghost success,
      whatever the starting stock. */
  lemma LockedRunHasNoGhostSuccess(m: Store, methodName: string, n: nat)
    requires Keyed(m) && TargetProductId in m
    ensures var t := RunSerial(m, TargetProductId, QuantityPerOrder, methodName, n);
            !BuildExperimentResult(methodName, m[TargetProductId].stock, n,
                                   t.successes, t.failures, t.store[TargetProductId].stock).hasGhostSuccess
  {
    SerialConserves(m, TargetProductId, QuantityPerOrder, methodName, n);
  }

  /** In any interleaving of unsynchronised one-unit orders the stock never
      drops by more than the successes claim, so the flag is down exactly
      when every success is matched by a unit that left the stock. */
  lemma NoLockFlagIsExact(m: Store, methodName: string, steps: seq<Step>)
    requires Keyed(m) && TargetProductId in m
    ensures var r := Interleave(Race(m, [], 0, 0), TargetProductId, QuantityPerOrder, steps);
            && TargetProductId in r.store
            && var res := BuildExperimentResult(methodName, m[TargetProductId].stock, Calls(steps),
                                                r.successes, r.failures, r.store[TargetProductId].stock);
               && res.actualDecrease <= res.expectedDecrease
               && (!res.hasGhostSuccess <==> res.actualDecrease == res.expectedDecrease)
  {
    NoLockBounds(m, TargetProductId, QuantityPerOrder, steps);
  }

  /** Two unsynchronised one-unit orders that both read before either writes
      raise the flag: two successes, one unit gone. */
  lemma LostUpdateRaisesFlag(m: Store, methodName: string)
    requires Keyed(m) && TargetProductId in m && 1 <= m[TargetProductId].stock
    ensures var r := Interleave(Race(m, [], 0, 0), TargetProductId, QuantityPerOrder,
                                [Check, Check, Write(0), Write(0)]);
            BuildExperimentResult(methodName, m[TargetProductId].stock, 2,
                                  r.successes, r.failures, r.store[TargetProductId].stock).hasGhostSuccess
  {
    TwoReadsBeforeWrites(m, TargetProductId, QuantityPerOrder);
  }

  /** How the two demo threads' steps fall. `Serial`: one `order()` runs to
      its end before the other starts. `ChecksInterleaved`: both threads pass
      the stock check, then each decrement (read and write) runs whole, the
      first thread's first. `ReadsInterleaved`: both threads pass the check
      and both read the counter before either writes it back. The last two
      are only possible under a lock that does not exclude the other thread. */
  datatype DemoSchedule = Serial(secondFirst: bool) | ChecksInterleaved | ReadsInterleaved

  class UiController {
    const repository: ProductRepository
    const services: OrderServiceSelector
    const demoStock: DemoSharedStock

    ghost predicate Valid()
      reads repository
    {
      services.repository == repository && services.Valid()
    }

    constructor (services: OrderServiceSelector, demoStock: DemoSharedStock)
      requires services.Valid()
      ensures this.services == services && this.repository == services.repository
      ensures this.demoStock == demoStock && Valid()
    {
      this.services := services;
      this.repository := services.repository;
      this.demoStock := demoStock;
    }

    /** `resetStock`: a negative stock is refused before anything is read;
        a missing target product is an error; otherwise the target's stock
        becomes the value given. */
    method ResetStock(stock: int) returns (r: Result<StockResponse>)
      requires Valid()
      modifies repository
      ensures Valid() && repository.nextId == old(repository.nextId)
      ensures stock < 0 ==> r == Err(InvalidRequest) && repository.products == old(repository.products)
      ensures stock >= 0 && TargetProductId !in old(repository.products) ==>
                r == Err(TargetMissing) && repository.products == old(repository.products)
      ensures stock >= 0 && TargetProductId in old(repository.products) ==>
                && r == Ok(StockResponse(TargetProductId, stock))
                && repository.products == OrderLogic.ResetStock(old(repository.products), TargetProductId, stock)
    {
      if stock < 0 {
        return Err(InvalidRequest);
      }
      var found := repository.FindById(TargetProductId);
      if found.None? {
        return Err(TargetMissing);
      }
      var product := found.value.(stock := stock);
      repository.Save(product);
      return Ok(StockResponse(product.id, product.stock));
    }

    /** `currentStock`: the target's stock, or an error when it is missing. */
    method CurrentStock() returns (r: Result<StockResponse>)
      requires Valid()
      ensures r.Ok? <==> TargetProductId in repository.products
      ensures r.Ok? ==> r.value == StockResponse(TargetProductId, repository.products[TargetProductId].stock)
      ensures r.Err? ==> r.error == TargetMissing
    {
      var found := repository.FindById(TargetProductId);
      if found.None? {
        return Err(TargetMissing);
      }
      return Ok(StockResponse(found.value.id, found.value.stock));
    }

    /** `runExperiment`: `threads` one-unit orders on the target through the
        selected strategy. A thread count below 1 is refused first, then a
        missing target. The attempts run one after the other here (see
        Executor). Whatever the strategy, the stock never drops by more than
        the successes claim (for "no-lock" under every interleaving, by
        `NoLockFlagIsExact`). Through a locking strategy every attempt is
        atomic, so the stock left accounts for every success, no ghost success
        is reported, and from a stock S >= 0 exactly min(threads, S) attempts
        succeed. */
    method RunExperiment(methodName: string, threads: int) returns (r: Result<RunExperimentResult>)
      requires Valid()
      modifies repository
      ensures Valid() && repository.nextId == old(repository.nextId)
      ensures threads < 1 ==> r == Err(InvalidRequest) && repository.products == old(repository.products)
      ensures threads >= 1 && TargetProductId !in old(repository.products) ==>
                r == Err(TargetMissing) && repository.products == old(repository.products)
      ensures threads >= 1 && TargetProductId in old(repository.products) ==>
                var t := RunSerial(old(repository.products), TargetProductId, QuantityPerOrder, methodName, threads);
                && repository.products == t.store
                && r == Ok(BuildExperimentResult(methodName, old(repository.products)[TargetProductId].stock, threads,
                                                 t.successes, t.failures, t.store[TargetProductId].stock))
      ensures r.Ok? ==> r.value.successCount + r.value.failureCount == threads
      ensures r.Ok? ==> r.value.actualDecrease <= r.value.expectedDecrease
      ensures r.Ok? && Select(methodName) != NoLock ==> !r.value.hasGhostSuccess
      ensures r.Ok? && Select(methodName) != NoLock && r.value.initialStock >= 0 ==>
                && r.value.successCount == Min(threads, r.value.initialStock)
                && r.value.remainingStock == r.value.initialStock - r.value.successCount
    {
      if threads < 1 {
        return Err(InvalidRequest);
      }
      var found := repository.FindById(TargetProductId);
      if found.None? {
        return Err(TargetMissing);
      }
      var initialStock := found.value.stock;
      var strategy := Select(methodName);
      ghost var start := repository.products;
      var test := ExecuteConcurrentOrders(services, strategy, TargetProductId, QuantityPerOrder, methodName, threads);
      var testResult := test.value;
      // `getFinalStock`: the attempts keep every product, so the target is still there.
      var remainingStock := repository.products[TargetProductId].stock;
      SerialConserves(start, TargetProductId, QuantityPerOrder, methodName, threads);
      if initialStock >= 0 {
        SerialSuccessCount(start, TargetProductId, QuantityPerOrder, methodName, threads);
      }
      var result := BuildExperimentResult(methodName, initialStock, threads, testResult.successCount,
                                          testResult.failureCount, remainingStock);
      assert result.actualDecrease == result.expectedDecrease;
      return Ok(result);
    }

    /** `runLocalLockExperiment`: reset the shared counter, then two
        `LocalLockDemoService` instances order once each. Each holds only its
        own lock, so both checks can pass before either decrement: from a
        positive stock both succeed, and the counter loses two units, or only
        one when both decrements read the counter before either writes. */
    method RunLocalLockExperiment(initialStock: int, schedule: DemoSchedule)
      returns (successCount: int, finalStock: int)
      modifies demoStock
      ensures finalStock == demoStock.stock
      ensures 0 <= successCount <= 2
      ensures schedule.Serial? ==>
                successCount == DemoRun(initialStock, 2).successes && finalStock == DemoRun(initialStock, 2).stock
      ensures schedule.ChecksInterleaved? ==>
                && successCount == (if initialStock > 0 then 2 else 0)
                && finalStock == initialStock - successCount
      ensures schedule.ReadsInterleaved? ==>
                && successCount == (if initialStock > 0 then 2 else 0)
                && finalStock == (if initialStock > 0 then initialStock - 1 else initialStock)
    {
      demoStock.stock := initialStock;
      successCount := 0;
      var service1 := new LocalLockDemoService(demoStock);
      var service2 := new LocalLockDemoService(demoStock);
      match schedule {
        case Serial(secondFirst) =>
          var first, second := if secondFirst then service2 else service1, if secondFirst then service1 else service2;
          var ok := first.Order();
          if ok {
            successCount := successCount + 1;
          }
          ok := second.Order();
          if ok {
            successCount := successCount + 1;
          }
        case ChecksInterleaved =>
          var ok1 := service1.CheckStock();
          var ok2 := service2.CheckStock();
          if ok1 {
            var seen1 := service1.ReadStock();
            service1.WriteDecrement(seen1);
            successCount := successCount + 1;
          }
          if ok2 {
            var seen2 := service2.ReadStock();
            service2.WriteDecrement(seen2);
            successCount := successCount + 1;
          }
        case ReadsInterleaved =>
          var ok1 := service1.CheckStock();
          var ok2 := service2.CheckStock();
          var seen1 := service1.ReadStock();
          var seen2 := service2.ReadStock();
          if ok1 {
            service1.WriteDecrement(seen1);
            successCount := successCount + 1;
          }
          if ok2 {
            service2.WriteDecrement(seen2);
            successCount := successCount + 1;
          }
      }
      finalStock := demoStock.stock;
    }

    /** `runGlobalLockExperiment`: the same with `GlobalLockDemoService`,
        whose lock every instance shares, so the two orders always run one
        after the other. */
    method RunGlobalLockExperiment(initialStock: int, secondFirst: bool)
      returns (successCount: int, finalStock: int)
      modifies demoStock
      ensures finalStock == demoStock.stock
      ensures 0 <= successCount <= 2
      ensures successCount == DemoRun(initialStock, 2).successes && finalStock == DemoRun(initialStock, 2).stock
    {
      demoStock.stock := initialStock;
      successCount := 0;
      var service1 := new GlobalLockDemoService(demoStock);
      var service2 := new GlobalLockDemoService(demoStock);
      var first, second := if secondFirst then service2 else service1, if secondFirst then service1 else service2;
      var ok := first.Order();
      if ok {
        successCount := successCount + 1;
      }
      ok := second.Order();
      if ok {
        successCount := successCount + 1;
      }
      finalStock := demoStock.stock;
    }

    /** `lockConceptDemo`: both experiments from a stock of one. The global
        lock always sells the one unit once. The local lock does too when the
        orders happen not to overlap, but when both checks pass first it
        sells the unit twice: the counter ends at -1 when the decrements run
        one after the other, and at 0 when both read it before either writes,
        so that one of the two sales takes nothing off the counter. */
    method LockConceptDemo(localSchedule: DemoSchedule, globalSecondFirst: bool)
      returns (resp: LockConceptDemoResponse)
      modifies demoStock
      ensures resp.initialStock == 1
      ensures demoStock.stock == resp.globalLockFinalStock
      ensures resp.globalLockSuccessCount == 1 && resp.globalLockFinalStock == 0
      ensures localSchedule.Serial? ==> resp.localLockSuccessCount == 1 && resp.localLockFinalStock == 0
      ensures localSchedule.ChecksInterleaved? ==> resp.localLockSuccessCount == 2 && resp.localLockFinalStock == -1
      ensures localSchedule.ReadsInterleaved? ==> resp.localLockSuccessCount == 2 && resp.localLockFinalStock == 0
      ensures !localSchedule.ReadsInterleaved? ==>
                resp.localLockSuccessCount + resp.localLockFinalStock == resp.initialStock
    {
      var initialStock := 1;
      SerialDemoCalls(initialStock, 2);
      var localSuccessCount, localFinalStock := RunLocalLockExperiment(initialStock, localSchedule);
      var globalSuccessCount, globalFinalStock := RunGlobalLockExperiment(initialStock, globalSecondFirst);
      resp := LockConceptDemoResponse(initialStock, localSuccessCount, localFinalStock,
                                      globalSuccessCount, globalFinalStock);
    }
  }
}
