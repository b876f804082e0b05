/** The experiment endpoint: a fresh product per run, a strategy chosen from
    the method string, a burst of attempts, and a check that the counts and
    the stock left reconcile. */
module ExperimentApi {
  import opened Domain
  import opened OrderLogic
  import opened Repository
  import opened ServiceSelection
  import opened Executor

  datatype ConcurrencyExperimentRequest =
    ConcurrencyExperimentRequest(initialStock: int, threads: int, quantity: int, methodName: string)

  datatype ConcurrencyExperimentResult =
    ConcurrencyExperimentResult(methodName: string, initialStock: int, threads: int, quantity: int,
                                successCount: int, failureCount: int, remainingStock: int,
                                invariantHolds: bool)

  /** `checkInvariant`: no negative stock, and every success accounts for
      exactly `quantity` of the stock that is gone. */
  function CheckInvariant(successCount: int, quantity: int, remaining: int, initialStock: int): (holds: bool)
    ensures holds ==> initialStock - remaining == successCount * quantity
    ensures holds ==> remaining >= 0
    ensures remaining >= 0 && initialStock - remaining == successCount * quantity ==> holds
  {
    remaining >= 0 && successCount * quantity + remaining == initialStock
  }

  /** A negative remaining stock fails the check whatever the counts. */
  lemma NegativeRemainingFails(successCount: int, quantity: int, remaining: int, initialStock: int)
    requires remaining < 0
    ensures !CheckInvariant(successCount, quantity, remaining, initialStock)
  {
  }

  /** A locked run (all attempts atomic) from a non-negative stock always
      passes the check. */
  lemma LockedRunPassesCheck(m: Store, id: int, quantity: int, methodName: string, n: nat)
    requires Keyed(m) && id in m && m[id].stock >= 0
    ensures var t := RunSerial(m, id, quantity, methodName, n);
            CheckInvariant(t.successes, quantity, t.store[id].stock, m[id].stock)
  {
    SerialConserves(m, id, quantity, methodName, n);
  }

  /** The controller's own `selectOrderService`, written out as in the
      controller; it agrees with the selector on every string. */
  function SelectOrderService(methodName: string): (s: Strategy)
    ensures s == Select(methodName)
  {
    if methodName == "no-lock" then NoLock
    else if methodName == "pessimistic" then Pessimistic
    else Lock
  }

  function BuildExperimentResult(req: ConcurrencyExperimentRequest, successCount: int, failureCount: int,
                                 remainingStock: int, invariantHolds: bool): (r: ConcurrencyExperimentResult)
    ensures r.methodName == req.methodName && r.initialStock == req.initialStock
    ensures r.threads == req.threads && r.quantity == req.quantity
    ensures r.successCount == successCount && r.failureCount == failureCount
    ensures r.remainingStock == remainingStock && r.invariantHolds == invariantHolds
  {
    ConcurrencyExperimentResult(req.methodName, req.initialStock, req.threads, req.quantity,
                                successCount, failureCount, remainingStock, invariantHolds)
  }

  /** The product an experiment starts from. */
  function ExperimentProduct(id: int, methodName: string, initialStock: int): (p: Product)
  {
    Product(id, "experiment-" + methodName, initialStock)
  }

  class ConcurrencyExperimentController {
    const repository: ProductRepository
    const services: OrderServiceSelector

    ghost predicate Valid()
      reads repository
    {
      services.repository == repository && services.Valid()
    }

    constructor (services: OrderServiceSelector)
      requires services.Valid()
      ensures this.services == services && this.repository == services.repository && Valid()
    {
      this.services := services;
      this.repository := services.repository;
    }

    /** `createExperimentProduct`: save a new product named after the method. */
    method CreateExperimentProduct(methodName: string, initialStock: int) returns (p: Product)
      requires Valid()
      modifies repository
      ensures Valid() && repository.nextId == old(repository.nextId) + 1
      ensures p == ExperimentProduct(old(repository.nextId), methodName, initialStock)
      ensures p.id !in old(repository.products)
      ensures repository.products == old(repository.products)[p.id := p]
    {
      p := repository.Insert("experiment-" + methodName, initialStock);
    }

    /** `runExperiment`: create the product, select the strategy, run the
        attempts, read the stock left, check and report. The attempts run one
        after the other here (see Executor); through a locking strategy, which
        makes each attempt atomic, a non-negative initial stock always passes
        the check and exactly min(threads, S / q) attempts succeed. */
    method RunExperiment(req: ConcurrencyExperimentRequest) returns (r: Result<ConcurrencyExperimentResult>)
      requires Valid()
      modifies repository
      ensures Valid() && repository.nextId == old(repository.nextId) + 1
      ensures var id := old(repository.nextId);
              var start := old(repository.products)[id := ExperimentProduct(id, req.methodName, req.initialStock)];
              && Keyed(start)
              && (req.threads < 1 ==> r == Err(InvalidRequest) && repository.products == start)
              && (req.threads >= 1 ==>
                    var t := RunSerial(start, id, req.quantity, req.methodName, req.threads);
                    && repository.products == t.store
                    && r == Ok(ConcurrencyExperimentResult(
                                 req.methodName, req.initialStock, req.threads, req.quantity,
                                 t.successes, t.failures, t.store[id].stock,
                                 CheckInvariant(t.successes, req.quantity, t.store[id].stock, req.initialStock))))
      ensures r.Ok? ==> r.value.successCount + r.value.failureCount == req.threads
      ensures r.Ok? && req.methodName != "no-lock" && req.initialStock >= 0 ==> r.value.invariantHolds
      ensures r.Ok? && req.methodName != "no-lock" && req.initialStock >= 0 && req.quantity >= 1 ==>
                r.value.successCount == Min(req.threads, req.initialStock / req.quantity)
    {
      var product := CreateExperimentProduct(req.methodName, req.initialStock);
      ghost var start := repository.products;
      var strategy := SelectOrderService(req.methodName);
      var test := ExecuteConcurrentOrders(services, strategy, product.id, req.quantity, req.methodName, req.threads);
      if test.Err? {
        return Err(test.error);
      }
      // `findById(...).get()`: the product was saved above and nothing deletes it.
      var remainingStock := repository.products[product.id].stock;
      var invariantHolds := CheckInvariant(test.value.successCount, req.quantity, remainingStock, req.initialStock);
      if req.initialStock >= 0 {
        LockedRunPassesCheck(start, product.id, req.quantity, req.methodName, req.threads);
        if req.quantity >= 1 {
          SerialSuccessCount(start, product.id, req.quantity, req.methodName, req.threads);
        }
      }
      return Ok(BuildExperimentResult(req, test.value.successCount, test.value.failureCount,
                                      remainingStock, invariantHolds));
    }
  }
}
