/** The product table the services read and write, held in memory: a map
    from id to product and the next id the identity column hands out. */
module Repository {
  import opened Domain

  class ProductRepository {
    var products: Store
    var nextId: int

    /** Every row sits under its own id, below the next id to be issued. */
    ghost predicate Valid()
      reads this
    {
      Keyed(products) && forall k :: k in products ==> k < nextId
    }

    constructor ()
      ensures Valid() && products == map[] && nextId == 1
    {
      products := map[];
      nextId := 1;
    }

    /** `findById`: the stored row, if any. */
    method FindById(id: int) returns (r: Option<Product>)
      ensures r.Some? <==> id in products
      ensures r.Some? ==> r.value == products[id]
    {
      r := if id in products then Some(products[id]) else None;
    }

    /** `save` of a row that was loaded: it replaces the stored row. */
    method Save(p: Product)
      requires Valid() && p.id in products
      modifies this
      ensures Valid() && nextId == old(nextId)
      ensures products == old(products)[p.id := p]
    {
      products := products[p.id := p];
    }

    /** `save` of a new row: the identity column assigns the next id. */
    method Insert(name: string, stock: int) returns (p: Product)
      requires Valid()
      modifies this
      ensures Valid() && nextId == old(nextId) + 1
      ensures p == Product(old(nextId), name, stock) && p.id !in old(products)
      ensures products == old(products)[p.id := p]
    {
      p := Product(nextId, name, stock);
      products := products[p.id := p];
      nextId := nextId + 1;
    }
  }
}
