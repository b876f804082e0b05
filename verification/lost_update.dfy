/** Unsynchronised order calls interleaved step by step. Each call is its
    read-and-check (OrderLogic.ReadForOrder) and, if the check passed, later
    its write of the snapshot less the quantity (OrderLogic.WriteBack); any
    number of other steps may come between the two. A schedule is the
    sequence of steps the threads happen to take. */
module LostUpdate {
  import opened Domain
  import opened OrderLogic

  /** `Check`: a new call reads and checks the product. `Write(k)`: the k-th
      call still waiting to write saves its snapshot less the quantity. */
  datatype Step = Check | Write(k: nat)

  /** The shared table, the snapshots of calls that passed their check and
      have not written yet, and the calls that returned or raised. */
  datatype Race = Race(store: Store, pending: seq<Product>, successes: nat, failures: nat)

  function Advance(r: Race, id: int, quantity: int, step: Step): (r': Race)
    ensures r'.successes >= r.successes && r'.failures >= r.failures
    ensures r'.successes + r'.failures + |r'.pending|
              == r.successes + r.failures + |r.pending| + (if step.Check? then 1 else 0)
  {
    match step
    case Check =>
      (match ReadForOrder(r.store, id, quantity)
       case Err(_) => r.(failures := r.failures + 1)
       case Ok(snapshot) => r.(pending := r.pending + [snapshot]))
    case Write(k) =>
      if k < |r.pending| then
        Race(WriteBack(r.store, r.pending[k], quantity), r.pending[..k] + r.pending[k + 1..],
             r.successes + 1, r.failures)
      else r
  }

  /** The state after a whole schedule. */
  function Interleave(r: Race, id: int, quantity: int, steps: seq<Step>): (r': Race)
    ensures r'.successes >= r.successes && r'.failures >= r.failures
    decreases |steps|
  {
    if steps == [] then r
    else Interleave(Advance(r, id, quantity, steps[0]), id, quantity, steps[1..])
  }

  /** The number of calls a schedule starts. */
  function Calls(steps: seq<Step>): (n: nat)
    decreases |steps|
  {
    if steps == [] then 0
    else (if steps[0].Check? then 1 else 0) + Calls(steps[1..])
  }

  /** What every reachable state satisfies, for a run that started from
      table `m0` with no call under way. */
  ghost predicate Inv(r: Race, m0: Store, id: int, quantity: int)
    requires id in m0
  {
    var s := m0[id].stock;
    && Keyed(r.store)
    && r.store.Keys == m0.Keys
    && (forall k :: k in m0 && k != id ==> r.store[k] == m0[k])
    && r.store[id].name == m0[id].name
    && (r.successes == 0 ==> r.store[id].stock == s)
    && (r.successes > 0 ==> 0 <= r.store[id].stock <= s - quantity)
    && s - r.successes * quantity <= r.store[id].stock
    && (forall i :: 0 <= i < |r.pending| ==>
          && r.pending[i].id == id
          && r.pending[i].name == m0[id].name
          && quantity <= r.pending[i].stock <= s
          && s - r.successes * quantity <= r.pending[i].stock)
  }

  lemma AdvanceKeepsInv(r: Race, m0: Store, id: int, quantity: int, step: Step)
    requires Keyed(m0) && id in m0 && 1 <= quantity && Inv(r, m0, id, quantity)
    ensures Inv(Advance(r, id, quantity, step), m0, id, quantity)
  {
    var s := m0[id].stock;
    match step
    case Check =>
    case Write(k) =>
      if k < |r.pending| {
        var snapshot := r.pending[k];
        var r' := Advance(r, id, quantity, step);
        assert r'.store[id].stock == snapshot.stock - quantity;
        assert (r.successes + 1) * quantity == r.successes * quantity + quantity;
        forall i | 0 <= i < |r'.pending|
          ensures s - r'.successes * quantity <= r'.pending[i].stock
        {
          assert r'.pending[i] in r.pending;
        }
      }
  }

  lemma {:induction false} InterleaveKeepsInv(r: Race, m0: Store, id: int, quantity: int, steps: seq<Step>)
    requires Keyed(m0) && id in m0 && 1 <= quantity && Inv(r, m0, id, quantity)
    ensures Inv(Interleave(r, id, quantity, steps), m0, id, quantity)
    decreases |steps|
  {
    if steps != [] {
      AdvanceKeepsInv(r, m0, id, quantity, steps[0]);
      InterleaveKeepsInv(Advance(r, id, quantity, steps[0]), m0, id, quantity, steps[1..]);
    }
  }

  /** Every call a schedule starts is, at the end, a success, a failure or
      still waiting to write: none is lost or counted twice. */
  lemma {:induction false} InterleaveAccounts(r: Race, id: int, quantity: int, steps: seq<Step>)
    ensures var r' := Interleave(r, id, quantity, steps);
            r'.successes + r'.failures + |r'.pending| == r.successes + r.failures + |r.pending| + Calls(steps)
    decreases |steps|
  {
    if steps != [] {
      InterleaveAccounts(Advance(r, id, quantity, steps[0]), id, quantity, steps[1..]);
    }
  }

  /** In every interleaving of unsynchronised calls from stock S with
      quantity q >= 1: the stock never drops by more than the successes
      account for (lost updates only ever make it drop by less), never goes
      negative once a call has written, and after at least one success it
      is at most S - q, so strictly below S. Other products are untouched. */
  lemma NoLockBounds(m0: Store, id: int, quantity: int, steps: seq<Step>)
    requires Keyed(m0) && id in m0 && 1 <= quantity
    ensures var r := Interleave(Race(m0, [], 0, 0), id, quantity, steps);
            var s := m0[id].stock;
            && id in r.store
            && s - r.successes * quantity <= r.store[id].stock
            && (r.successes > 0 ==> 0 <= r.store[id].stock <= s - quantity < s)
            && r.successes + r.failures + |r.pending| == Calls(steps)
            && (forall k :: k in m0 && k != id ==> k in r.store && r.store[k] == m0[k])
  {
    InterleaveKeepsInv(Race(m0, [], 0, 0), m0, id, quantity, steps);
    InterleaveAccounts(Race(m0, [], 0, 0), id, quantity, steps);
  }

  /** Running a schedule is running its first step, then the rest. */
  lemma InterleaveCons(r: Race, id: int, quantity: int, step: Step, rest: seq<Step>)
    ensures Interleave(r, id, quantity, [step] + rest) == Interleave(Advance(r, id, quantity, step), id, quantity, rest)
  {
    assert ([step] + rest)[1..] == rest;
  }

  /** A check immediately followed by its own write is one uninterrupted
      order step. */
  lemma CheckThenWriteIsOrder(m: Store, id: int, quantity: int, methodName: string)
    requires Keyed(m)
    ensures var r := Interleave(Race(m, [], 0, 0), id, quantity, [Check, Write(0)]);
            var o := PlaceOrder(m, id, quantity, methodName);
            && r.store == o.store
            && r.pending == []
            && (r.successes == 1 <==> o.result.Ok?)
            && r.successes + r.failures == 1
  {
    var r1 := Advance(Race(m, [], 0, 0), id, quantity, Check);
    InterleaveCons(Race(m, [], 0, 0), id, quantity, Check, [Write(0)]);
    InterleaveCons(r1, id, quantity, Write(0), []);
  }

  /** The lost update: two calls both read stock s >= q before either
      writes. Both report success, yet the stock ends at s - q: one success
      is a ghost, the expected decrease 2q exceeds the actual decrease q. */
  lemma TwoReadsBeforeWrites(m: Store, id: int, quantity: int)
    requires Keyed(m) && id in m && 1 <= quantity <= m[id].stock
    ensures var r := Interleave(Race(m, [], 0, 0), id, quantity, [Check, Check, Write(0), Write(0)]);
            && r.successes == 2 && r.failures == 0 && r.pending == []
            && r.store[id].stock == m[id].stock - quantity
            && r.successes * quantity > m[id].stock - r.store[id].stock
  {
    var r0 := Race(m, [], 0, 0);
    var r1 := Race(m, [m[id]], 0, 0);
    var r2 := Race(m, [m[id], m[id]], 0, 0);
    var after := WriteBack(m, m[id], quantity);
    var r3 := Race(after, [m[id]], 1, 0);
    var r4 := Race(after, [], 2, 0);
    assert Advance(r0, id, quantity, Check) == r1;
    assert Advance(r1, id, quantity, Check) == r2;
    assert Advance(r2, id, quantity, Write(0)) == r3;
    assert Advance(r3, id, quantity, Write(0)) == r4;
    InterleaveCons(r0, id, quantity, Check, [Check, Write(0), Write(0)]);
    InterleaveCons(r1, id, quantity, Check, [Write(0), Write(0)]);
    InterleaveCons(r2, id, quantity, Write(0), [Write(0)]);
    InterleaveCons(r3, id, quantity, Write(0), []);
  }
}
