/** The lock-concept demo: a one-unit stock counter shared by every demo
    service, ordered from through a lock held per instance or through one
    lock shared by all instances. */
module LockDemo {
  import OrderLogic

  /** The process-wide demo counter, passed by reference to each service. */
  class DemoSharedStock {
    var stock: int

    constructor (stock: int)
      ensures this.stock == stock
    {
      this.stock := stock;
    }
  }

  /** One `order()` call on the counter with nothing in between: whether it
      succeeded and the stock it leaves. */
  datatype DemoStep = DemoStep(ok: bool, stock: int)

  function DemoOrder(stock: int): (r: DemoStep)
    ensures r.ok <==> stock > 0
    ensures stock - r.stock == (if r.ok then 1 else 0)
    ensures stock >= 0 ==> r.stock >= 0
  {
    if stock <= 0 then DemoStep(false, stock) else DemoStep(true, stock - 1)
  }

  /** How many of `calls` serialised `order()` calls succeed, and the stock
      they leave. */
  datatype DemoTally = DemoTally(successes: nat, stock: int)

  function DemoRun(stock: int, calls: nat): (t: DemoTally)
    ensures t.successes <= calls
    ensures stock - t.stock == t.successes
    decreases calls
  {
    if calls == 0 then DemoTally(0, stock)
    else
      var t := DemoRun(stock, calls - 1);
      var step := DemoOrder(t.stock);
      DemoTally(if step.ok then t.successes + 1 else t.successes, step.stock)
  }

  /** From any stock S >= 0, k serialised calls succeed min(k, S) times and
      leave S - min(k, S), which is never negative. */
  lemma {:induction false} SerialDemoCalls(stock: int, calls: nat)
    requires 0 <= stock
    ensures DemoRun(stock, calls) == DemoTally(OrderLogic.Min(calls, stock), stock - OrderLogic.Min(calls, stock))
    ensures DemoRun(stock, calls).stock >= 0
    decreases calls
  {
    if calls > 0 {
      SerialDemoCalls(stock, calls - 1);
    }
  }

  /** `LocalLockDemoService`: `order()` holds the lock of its own instance
      only. Two instances therefore do not exclude each other: the check, and
      the read and the write of the shared counter's decrement, are written
      as the steps another instance can run between. */
  class LocalLockDemoService {
    const shared: DemoSharedStock

    constructor (shared: DemoSharedStock)
      ensures this.shared == shared
    {
      this.shared := shared;
    }

    /** The check: is there stock left? */
    method CheckStock() returns (inStock: bool)
      ensures inStock <==> shared.stock > 0
    {
      inStock := shared.stock > 0;
    }

    /** The read half of `stock -= 1`: the value the decrement starts from. */
    method ReadStock() returns (seen: int)
      ensures seen == shared.stock
    {
      seen := shared.stock;
    }

    /** The write half of `stock -= 1`: one less than the value read, whatever
        the counter holds by now. */
    method WriteDecrement(seen: int)
      modifies shared
      ensures shared.stock == seen - 1
    {
      shared.stock := seen - 1;
    }

    /** `order()` on one instance: the check, then the read and the write of
        the decrement if it passed, with nothing in between. */
    method Order() returns (ok: bool)
      modifies shared
      ensures DemoStep(ok, shared.stock) == DemoOrder(old(shared.stock))
    {
      ok := CheckStock();
      if ok {
        var seen := ReadStock();
        WriteDecrement(seen);
      }
    }
  }

  /** `GlobalLockDemoService`: `order()` holds a lock shared by every
      instance, so each call is atomic with respect to all the others. */
  class GlobalLockDemoService {
    const shared: DemoSharedStock

    constructor (shared: DemoSharedStock)
      ensures this.shared == shared
    {
      this.shared := shared;
    }

    method Order() returns (ok: bool)
      modifies shared
      ensures DemoStep(ok, shared.stock) == DemoOrder(old(shared.stock))
    {
      if shared.stock <= 0 {
        return false;
      }
      shared.stock := shared.stock - 1;
      return true;
    }
  }
}
