/** The unsynchronised strategy. Its order is two steps that nothing holds
    together: the read-and-check, then the write of the snapshot less the
    quantity. Run back to back they are the order step of OrderLogic; run
    with other calls in between they lose updates (module LostUpdate). */
module NoLockOrders {
  import opened Domain
  import opened OrderLogic
  import opened Repository

  class NoLockOrderService {
    const repository: ProductRepository

    constructor (repository: ProductRepository)
      ensures this.repository == repository
    {
      this.repository := repository;
    }

    /** The read half: load the product and check its stock. */
    method ReadAndCheck(productId: int, quantity: int) returns (r: Result<Product>)
      ensures r == ReadForOrder(repository.products, productId, quantity)
    {
      var found := repository.FindById(productId);
      if found.None? {
        return Err(NotFound);
      }
      if found.value.stock < quantity {
        return Err(InsufficientStock);
      }
      return Ok(found.value);
    }

    /** The write half: decrement the loaded snapshot and save it, whatever
        the table holds by now. */
    method WriteSnapshot(snapshot: Product, quantity: int, methodName: string) returns (receipt: Receipt)
      requires repository.Valid() && snapshot.id in repository.products
      modifies repository
      ensures repository.Valid() && repository.nextId == old(repository.nextId)
      ensures repository.products == WriteBack(old(repository.products), snapshot, quantity)
      ensures receipt == Receipt(true, repository.products[snapshot.id].stock, methodName)
    {
      var updated := snapshot.(stock := snapshot.stock - quantity);
      repository.Save(updated);
      receipt := Receipt(true, updated.stock, methodName);
    }

    /** `order`: the two halves back to back. */
    method Order(productId: int, quantity: int, methodName: string) returns (r: Result<Receipt>)
      requires repository.Valid()
      modifies repository
      ensures repository.Valid() && repository.nextId == old(repository.nextId)
      ensures var o := PlaceOrder(old(repository.products), productId, quantity, methodName);
              r == o.result && repository.products == o.store
    {
      var read := ReadAndCheck(productId, quantity);
      if read.Err? {
        return Err(read.error);
      }
      var receipt := WriteSnapshot(read.value, quantity, methodName);
      return Ok(receipt);
    }

    /** `resetStock`: overwrite the stock of an existing product, ignore a
        missing one. */
    method ResetStock(productId: int, stock: int)
      requires repository.Valid()
      modifies repository
      ensures repository.Valid() && repository.nextId == old(repository.nextId)
      ensures repository.products == OrderLogic.ResetStock(old(repository.products), productId, stock)
    {
      var found := repository.FindById(productId);
      if found.Some? {
        repository.Save(found.value.(stock := stock));
      }
    }

    /** `currentStock`: the stored stock; a missing product makes the bare
        `orElseThrow()` raise. */
    method CurrentStock(productId: int) returns (r: Result<int>)
      ensures r.Ok? <==> productId in repository.products
      ensures r.Ok? ==> r.value == repository.products[productId].stock
      ensures r.Err? ==> r.error == NoSuchElement
    {
      var found := repository.FindById(productId);
      r := if found.Some? then Ok(found.value.stock) else Err(NoSuchElement);
    }
  }
}
