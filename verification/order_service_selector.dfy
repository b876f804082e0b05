/** Choosing a strategy from the request's method string, and the holder of
    the three service instances that all share one product table. */
module ServiceSelection {
  import opened Domain
  import opened OrderLogic
  import opened Repository
  import opened NoLockOrders
  import opened LockOrders
  import opened PessimisticOrders

  /** The three strategies, a closed set. */
  datatype Strategy = NoLock | Lock | Pessimistic

  /** `select`: "no-lock" and "pessimistic" pick their strategies, every other
      string falls back to the instance lock. */
  function Select(methodName: string): (s: Strategy)
    ensures s == NoLock <==> methodName == "no-lock"
    ensures s == Pessimistic <==> methodName == "pessimistic"
    ensures s == Lock <==> methodName != "no-lock" && methodName != "pessimistic"
  {
    match methodName
    case "no-lock" => NoLock
    case "pessimistic" => Pessimistic
    case _ => Lock
  }

  /** The order endpoint dispatches a request that names no method as "lock". */
  function EffectiveMethod(requested: Option<string>): (m: string)
    ensures requested.Some? ==> m == requested.value
    ensures requested.None? ==> m == "lock" && Select(m) == Lock
  {
    if requested.Some? then requested.value else "lock"
  }

  class OrderServiceSelector {
    const repository: ProductRepository
    const noLock: NoLockOrderService
    const lock: LockOrderService
    const pessimistic: PessimisticLockOrderService

    /** The three services work on the one table. */
    ghost predicate Valid()
      reads repository
    {
      && noLock.repository == repository
      && lock.repository == repository
      && pessimistic.repository == repository
      && repository.Valid()
    }

    constructor (repository: ProductRepository)
      requires repository.Valid()
      ensures this.repository == repository && Valid()
    {
      this.repository := repository;
      noLock := new NoLockOrderService(repository);
      lock := new LockOrderService(repository);
      pessimistic := new PessimisticLockOrderService(repository);
    }

    /** Hand an order to the chosen service. Called one at a time, every
        strategy behaves as the uninterrupted order step. */
    method Dispatch(strategy: Strategy, productId: int, quantity: int, methodName: string) returns (r: Result<Receipt>)
      requires Valid()
      modifies repository
      ensures Valid() && repository.nextId == old(repository.nextId)
      ensures var o := PlaceOrder(old(repository.products), productId, quantity, methodName);
              r == o.result && repository.products == o.store
    {
      match strategy
      case NoLock => r := noLock.Order(productId, quantity, methodName);
      case Lock => r := lock.Order(productId, quantity, methodName);
      case Pessimistic => r := pessimistic.Order(productId, quantity, methodName);
    }
  }
}
