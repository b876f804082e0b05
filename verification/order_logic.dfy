/** The sequential core the three order services share: look the product up,
    refuse a missing product or a short stock, otherwise write back the stock
    less the quantity. Also the administrative reset and a serial run of
    order attempts, which is what a locked strategy makes of a burst of
    concurrent attempts. */
module OrderLogic {
  import opened Domain

  /** The lookup and the sufficiency check (the read half of an order). */
  function ReadForOrder(m: Store, id: int, quantity: int): (r: Result<Product>)
    ensures r.Ok? <==> id in m && quantity <= m[id].stock
    ensures r.Ok? ==> r.value == m[id]
    ensures r == Err(NotFound) <==> id !in m
    ensures r == Err(InsufficientStock) <==> id in m && m[id].stock < quantity
  {
    if id !in m then Err(NotFound)
    else if m[id].stock < quantity then Err(InsufficientStock)
    else Ok(m[id])
  }

  /** The write half of an order: the snapshot that was read, less the
      quantity, is saved under the snapshot's id. The stock written is
      computed from the snapshot, not from whatever the table holds now. */
  function WriteBack(m: Store, snapshot: Product, quantity: int): (r: Store)
    ensures r.Keys == m.Keys + {snapshot.id}
    ensures r[snapshot.id].stock == snapshot.stock - quantity
    ensures r[snapshot.id].id == snapshot.id && r[snapshot.id].name == snapshot.name
    ensures forall k :: k in m && k != snapshot.id ==> r[k] == m[k]
    ensures Keyed(m) ==> Keyed(r)
  {
    m[snapshot.id := snapshot.(stock := snapshot.stock - quantity)]
  }

  /** What one order attempt returns and the table it leaves behind. */
  datatype Outcome = Outcome(result: Result<Receipt>, store: Store)

  /** One order attempt run without interruption: the read and the write of
      one call with nothing in between. */
  function PlaceOrder(m: Store, id: int, quantity: int, methodName: string): (o: Outcome)
    requires Keyed(m)
    ensures Keyed(o.store) && o.store.Keys == m.Keys
    ensures o.result.Ok? <==> id in m && quantity <= m[id].stock
    ensures o.result == Err(NotFound) <==> id !in m
    ensures o.result == Err(InsufficientStock) <==> id in m && m[id].stock < quantity
    ensures o.result.Err? ==> o.store == m
    ensures o.result.Ok? ==>
              && o.result.value.success
              && o.result.value.methodName == methodName
              && o.store[id].stock == m[id].stock - quantity
              && o.result.value.remainingStock == o.store[id].stock
              && o.store[id].name == m[id].name
    ensures forall k :: k in m && k != id ==> o.store[k] == m[k]
    ensures forall k :: k in m && m[k].stock >= 0 ==> o.store[k].stock >= 0
  {
    match ReadForOrder(m, id, quantity)
    case Err(e) => Outcome(Err(e), m)
    case Ok(snapshot) =>
      var m' := WriteBack(m, snapshot, quantity);
      Outcome(Ok(Receipt(true, m'[id].stock, methodName)), m')
  }

  /** `resetStock`: overwrite the stock of an existing product; a missing id
      is ignored. */
  function ResetStock(m: Store, id: int, stock: int): (r: Store)
    requires Keyed(m)
    ensures Keyed(r) && r.Keys == m.Keys
    ensures id in m ==> r[id].stock == stock && r[id].name == m[id].name
    ensures id !in m ==> r == m
    ensures forall k :: k in m && k != id ==> r[k] == m[k]
  {
    if id in m then m[id := m[id].(stock := stock)] else m
  }

  /** The stock of a product, if it exists. */
  function StockOf(m: Store, id: int): (s: Option<int>)
  {
    if id in m then Some(m[id].stock) else None
  }

  /** Resetting twice to the same value is resetting once, and afterwards the
      stock reads back as the value given, whatever it was before. */
  lemma ResetIdempotent(m: Store, id: int, stock: int)
    requires Keyed(m)
    ensures ResetStock(ResetStock(m, id, stock), id, stock) == ResetStock(m, id, stock)
    ensures id in m ==> StockOf(ResetStock(m, id, stock), id) == Some(stock)
    ensures id !in m ==> StockOf(ResetStock(m, id, stock), id) == None
  {
  }

  /** The tally of a serial run: attempts that returned, attempts that
      raised, and the table afterwards. */
  datatype Tally = Tally(successes: nat, failures: nat, store: Store)

  /** `n` order attempts on the same (id, quantity, methodName), one after the
      other, each counted once as a success or a failure. */
  function RunSerial(m: Store, id: int, quantity: int, methodName: string, n: nat): (t: Tally)
    requires Keyed(m)
    ensures t.successes + t.failures == n
    ensures Keyed(t.store) && t.store.Keys == m.Keys
    ensures forall k :: k in m && k != id ==> t.store[k] == m[k]
    decreases n
  {
    if n == 0 then Tally(0, 0, m)
    else
      var t := RunSerial(m, id, quantity, methodName, n - 1);
      var o := PlaceOrder(t.store, id, quantity, methodName);
      if o.result.Ok? then Tally(t.successes + 1, t.failures, o.store)
      else Tally(t.successes, t.failures + 1, o.store)
  }

  /** A locked run seen through the one product it targets: successes so
      far and the stock left, from stock `s` after `n` attempts. */
  datatype Count = Count(done: nat, left: int)

  function Countdown(s: int, quantity: int, n: nat): (c: Count)
    decreases n
  {
    if n == 0 then Count(0, s)
    else
      var c := Countdown(s, quantity, n - 1);
      if quantity <= c.left then Count(c.done + 1, c.left - quantity) else c
  }

  /** One order step seen through the product it targets. */
  lemma OrderOnTarget(m: Store, id: int, quantity: int, methodName: string)
    requires Keyed(m) && id in m
    ensures var o := PlaceOrder(m, id, quantity, methodName);
            && id in o.store
            && (o.result.Ok? <==> quantity <= m[id].stock)
            && o.store[id].stock == if quantity <= m[id].stock then m[id].stock - quantity else m[id].stock
  {
  }

  /** The serial run, restricted to the targeted product, is the countdown. */
  lemma {:induction false} SerialIsCountdown(m: Store, id: int, quantity: int, methodName: string, n: nat)
    requires Keyed(m) && id in m
    ensures var t := RunSerial(m, id, quantity, methodName, n);
            && t.successes == Countdown(m[id].stock, quantity, n).done
            && t.store[id].stock == Countdown(m[id].stock, quantity, n).left
    decreases n
  {
    if n > 0 {
      SerialIsCountdown(m, id, quantity, methodName, n - 1);
      OrderOnTarget(RunSerial(m, id, quantity, methodName, n - 1).store, id, quantity, methodName);
    }
  }

  /** One more attempt extends a serial run by one order step. */
  lemma SerialNext(m: Store, id: int, quantity: int, methodName: string, n: nat,
                   successes: nat, failures: nat, store: Store)
    requires Keyed(m) && RunSerial(m, id, quantity, methodName, n) == Tally(successes, failures, store)
    ensures Keyed(store)
    ensures var o := PlaceOrder(store, id, quantity, methodName);
            RunSerial(m, id, quantity, methodName, n + 1)
              == if o.result.Ok? then Tally(successes + 1, failures, o.store)
                 else Tally(successes, failures + 1, o.store)
  {
  }

  /** A run against a missing product fails every attempt and changes nothing. */
  lemma {:induction false} SerialMissing(m: Store, id: int, quantity: int, methodName: string, n: nat)
    requires Keyed(m) && id !in m
    ensures RunSerial(m, id, quantity, methodName, n) == Tally(0, n, m)
    decreases n
  {
    if n > 0 {
      SerialMissing(m, id, quantity, methodName, n - 1);
    }
  }

  /** Every success of the countdown took exactly `quantity` off, and a
      stock that starts non-negative stays non-negative. */
  lemma {:induction false} CountdownConserves(s: int, quantity: int, n: nat)
    ensures var c := Countdown(s, quantity, n);
            && c.done * quantity + c.left == s
            && (s >= 0 ==> c.left >= 0)
    decreases n
  {
    if n > 0 {
      CountdownConserves(s, quantity, n - 1);
      var c := Countdown(s, quantity, n - 1);
      if quantity <= c.left {
        assert (c.done + 1) * quantity == c.done * quantity + quantity;
      }
    }
  }

  /** Conservation for a locked run: `successes * quantity + remaining ==
      initial`, and `remaining >= 0` when the initial stock is. */
  lemma SerialConserves(m: Store, id: int, quantity: int, methodName: string, n: nat)
    requires Keyed(m) && id in m
    ensures var t := RunSerial(m, id, quantity, methodName, n);
            && t.successes * quantity + t.store[id].stock == m[id].stock
            && (m[id].stock >= 0 ==> t.store[id].stock >= 0)
  {
    SerialIsCountdown(m, id, quantity, methodName, n);
    CountdownConserves(m[id].stock, quantity, n);
  }

  function Min(a: int, b: int): (r: int)
  {
    if a <= b then a else b
  }

  /** With `done` successes so far out of `s / q` possible, the stock left
      admits another success exactly when `done < s / q`. */
  lemma CountStep(s: int, q: int, done: int)
    requires 0 <= s && 1 <= q && 0 <= done <= s / q
    ensures q <= s - done * q <==> done < s / q
  {
    var d := s / q;
    assert s == d * q + s % q && 0 <= s % q < q;
    if done < d {
      assert (done + 1) * q <= d * q;
      assert done * q + q == (done + 1) * q;
    } else {
      assert done == d;
    }
  }

  /** From stock s >= 0 with quantity q >= 1, the countdown of n attempts has
      exactly min(n, s / q) successes. */
  lemma {:induction false} CountdownCount(s: int, quantity: int, n: nat)
    requires 0 <= s && 1 <= quantity
    ensures Countdown(s, quantity, n).done == Min(n, s / quantity)
    decreases n
  {
    if n > 0 {
      CountdownCount(s, quantity, n - 1);
      CountdownConserves(s, quantity, n - 1);
      CountStep(s, quantity, Countdown(s, quantity, n - 1).done);
    }
  }

  /** A locked run from stock S >= 0 with quantity q >= 1 has exactly
      min(n, S / q) successes (min(n, S) for q = 1) and leaves
      S - successes * q. */
  lemma SerialSuccessCount(m: Store, id: int, quantity: int, methodName: string, n: nat)
    requires Keyed(m) && id in m && 0 <= m[id].stock && 1 <= quantity
    ensures var t := RunSerial(m, id, quantity, methodName, n);
            && t.successes == Min(n, m[id].stock / quantity)
            && t.store[id].stock == m[id].stock - t.successes * quantity
  {
    SerialIsCountdown(m, id, quantity, methodName, n);
    CountdownConserves(m[id].stock, quantity, n);
    CountdownCount(m[id].stock, quantity, n);
  }
}
