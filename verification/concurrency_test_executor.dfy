/** The experiment executor: `threads` order attempts on one product through
    one strategy, each counted once as a success or a failure. The worker
    pool runs them in parallel; a locked strategy makes each attempt atomic,
    and here they run one after the other. For the unsynchronised strategy
    that is only the schedule without overlap: module LostUpdate covers the
    overlapping ones. */
module Executor {
  import opened Domain
  import opened OrderLogic
  import opened ServiceSelection

  /** The cap on worker threads. */
  const MaxThreadPoolSize := 50

  /** The number of worker threads: `minOf(threads, MAX_THREAD_POOL_SIZE)`. */
  function PoolSize(threads: int): (size: int)
    ensures size <= MaxThreadPoolSize && size <= threads
    ensures size == MaxThreadPoolSize || size == threads
    ensures threads >= 1 ==> size >= 1
  {
    if threads <= MaxThreadPoolSize then threads else MaxThreadPoolSize
  }

  datatype TestResult = TestResult(successCount: nat, failureCount: nat)

  /** `executeOrder`: one attempt, counted as a success when the order
      returns and as a failure when it raises, whatever the error. */
  method ExecuteOrder(services: OrderServiceSelector, strategy: Strategy, productId: int,
                      quantity: int, methodName: string, successCount: nat, failureCount: nat)
    returns (successes: nat, failures: nat)
    requires services.Valid()
    modifies services.repository
    ensures services.Valid() && services.repository.nextId == old(services.repository.nextId)
    ensures var o := PlaceOrder(old(services.repository.products), productId, quantity, methodName);
            && services.repository.products == o.store
            && successes == (if o.result.Ok? then successCount + 1 else successCount)
            && failures == (if o.result.Ok? then failureCount else failureCount + 1)
  {
    var outcome := services.Dispatch(strategy, productId, quantity, methodName);
    if outcome.Ok? {
      successes, failures := successCount + 1, failureCount;
    } else {
      successes, failures := successCount, failureCount + 1;
    }
  }

  /** `submitOrderTasks`: `threads` attempts on the same product, quantity
      and method, run to completion one after the other. */
  method SubmitOrderTasks(services: OrderServiceSelector, strategy: Strategy, productId: int,
                          quantity: int, methodName: string, threads: nat)
    returns (successCount: nat, failureCount: nat)
    requires services.Valid()
    modifies services.repository
    ensures services.Valid() && services.repository.nextId == old(services.repository.nextId)
    ensures RunSerial(old(services.repository.products), productId, quantity, methodName, threads)
              == Tally(successCount, failureCount, services.repository.products)
  {
    ghost var start := services.repository.products;
    successCount, failureCount := 0, 0;
    var submitted := 0;
    while submitted < threads
      invariant 0 <= submitted <= threads
      invariant services.Valid() && services.repository.nextId == old(services.repository.nextId)
      invariant RunSerial(start, productId, quantity, methodName, submitted)
                  == Tally(successCount, failureCount, services.repository.products)
    {
      SerialNext(start, productId, quantity, methodName, submitted,
                 successCount, failureCount, services.repository.products);
      successCount, failureCount := ExecuteOrder(services, strategy, productId, quantity, methodName,
                                                 successCount, failureCount);
      submitted := submitted + 1;
    }
  }

  /** `executeConcurrentOrders`. A thread count below 1 is refused when the
      latch or the pool is built, before any attempt; otherwise every attempt
      runs to completion before the counts are reported, and each is counted
      exactly once. */
  method ExecuteConcurrentOrders(services: OrderServiceSelector, strategy: Strategy, productId: int,
                                 quantity: int, methodName: string, threads: int)
    returns (r: Result<TestResult>)
    requires services.Valid()
    modifies services.repository
    ensures services.Valid() && services.repository.nextId == old(services.repository.nextId)
    ensures threads < 1 ==> r == Err(InvalidRequest) && services.repository.products == old(services.repository.products)
    ensures threads >= 1 ==>
              var t := RunSerial(old(services.repository.products), productId, quantity, methodName, threads);
              && r == Ok(TestResult(t.successes, t.failures))
              && services.repository.products == t.store
    ensures r.Ok? ==> r.value.successCount + r.value.failureCount == threads
  {
    if threads < 1 {
      return Err(InvalidRequest);
    }
    // The pool of `PoolSize(threads)` workers runs the attempts here one
    // after the other.
    var successCount, failureCount := SubmitOrderTasks(services, strategy, productId, quantity, methodName, threads);
    return Ok(TestResult(successCount, failureCount));
  }
}
