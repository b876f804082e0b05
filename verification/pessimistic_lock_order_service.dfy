/** The row-lock strategy. The product is read for update inside a
    transaction, which holds every other such read of the same id off until
    commit; in this model the order is therefore one atomic step per id. */
module PessimisticOrders {
  import opened Domain
  import opened OrderLogic
  import opened Repository

  class PessimisticLockOrderService {
    const repository: ProductRepository

    constructor (repository: ProductRepository)
      ensures this.repository == repository
    {
      this.repository := repository;
    }

    /** `order`: exclusive read, check, decrement and save, committed as one
        unit. The exclusive read is the plain lookup here: the exclusion it
        buys is the atomicity of the method. */
    method Order(productId: int, quantity: int, methodName: string) returns (r: Result<Receipt>)
      requires repository.Valid()
      modifies repository
      ensures repository.Valid() && repository.nextId == old(repository.nextId)
      ensures var o := PlaceOrder(old(repository.products), productId, quantity, methodName);
              r == o.result && repository.products == o.store
    {
      var locked := repository.FindById(productId);
      if locked.None? {
        return Err(NotFound);
      }
      var product := locked.value;
      if product.stock < quantity {
        return Err(InsufficientStock);
      }
      product := product.(stock := product.stock - quantity);
      repository.Save(product);
      return Ok(Receipt(true, product.stock, methodName));
    }

    /** `resetStock`: overwrite the stock of an existing product, ignore a
        missing one. */
    method ResetStock(productId: int, stock: int)
      requires repository.Valid()
      modifies repository
      ensures repository.Valid() && repository.nextId == old(repository.nextId)
      ensures repository.products == OrderLogic.ResetStock(old(repository.products), productId, stock)
    {
      var found := repository.FindById(productId);
      if found.Some? {
        repository.Save(found.value.(stock := stock));
      }
    }

    /** `currentStock`: the stored stock; here a missing product raises the
        same not-found error as `order`. */
    method CurrentStock(productId: int) returns (r: Result<int>)
      ensures r.Ok? <==> productId in repository.products
      ensures r.Ok? ==> r.value == repository.products[productId].stock
      ensures r.Err? ==> r.error == NotFound
    {
      var found := repository.FindById(productId);
      r := if found.Some? then Ok(found.value.stock) else Err(NotFound);
    }
  }
}
