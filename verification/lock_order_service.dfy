/** The instance-lock strategy. The whole order runs under the lock of the
    one service instance, so in this model it is a single atomic step. */
module LockOrders {
  import opened Domain
  import opened OrderLogic
  import opened Repository

  class LockOrderService {
    const repository: ProductRepository

    constructor (repository: ProductRepository)
      ensures this.repository == repository
    {
      this.repository := repository;
    }

    /** `order`: look up, check, decrement and save without interruption. */
    method Order(productId: int, quantity: int, methodName: string) returns (r: Result<Receipt>)
      requires repository.Valid()
      modifies repository
      ensures repository.Valid() && repository.nextId == old(repository.nextId)
      ensures var o := PlaceOrder(old(repository.products), productId, quantity, methodName);
              r == o.result && repository.products == o.store
    {
      var found := repository.FindById(productId);
      if found.None? {
        return Err(NotFound);
      }
      var product := found.value;
      if product.stock < quantity {
        return Err(InsufficientStock);
      }
      product := product.(stock := product.stock - quantity);
      repository.Save(product);
      return Ok(Receipt(true, product.stock, methodName));
    }

    /** `resetStock`: overwrite the stock of an existing product, ignore a
        missing one. */
    method ResetStock(productId: int, stock: int)
      requires repository.Valid()
      modifies repository
      ensures repository.Valid() && repository.nextId == old(repository.nextId)
      ensures repository.products == OrderLogic.ResetStock(old(repository.products), productId, stock)
    {
      var found := repository.FindById(productId);
      if found.Some? {
        repository.Save(found.value.(stock := stock));
      }
    }

    /** `currentStock`: the stored stock; a missing product makes the bare
        `orElseThrow()` raise. */
    method CurrentStock(productId: int) returns (r: Result<int>)
      ensures r.Ok? <==> productId in repository.products
      ensures r.Ok? ==> r.value == repository.products[productId].stock
      ensures r.Err? ==> r.error == NoSuchElement
    {
      var found := repository.FindById(productId);
      r := if found.Some? then Ok(found.value.stock) else Err(NoSuchElement);
    }
  }
}
