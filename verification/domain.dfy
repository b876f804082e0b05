/** The values the order services exchange: the product record, the order
    receipt and the failures an order attempt can end in. */
module Domain {

  /** A product row: an identity, a label and the stock that orders decrement. */
  datatype Product = Product(id: int, name: string, stock: int)

  /** The exceptions the services and controllers raise, one constructor each.
      NotFound          - IllegalArgumentException for a missing product
      InsufficientStock - IllegalStateException when stock < quantity
      NoSuchElement     - Optional.orElseThrow() without a supplier
      InvalidRequest    - a failed `require` or a rejected thread count
      TargetMissing     - IllegalStateException for the missing demo product */
  datatype Error = NotFound | InsufficientStock | NoSuchElement | InvalidRequest | TargetMissing

  datatype Option<T> = None | Some(value: T)

  datatype Result<T> = Ok(value: T) | Err(error: Error)

  /** The map an order returns: `success`, `remainingStock` and `method`. */
  datatype Receipt = Receipt(success: bool, remainingStock: int, methodName: string)

  /** The product table, keyed by id. */
  type Store = map<int, Product>

  /** Every row is stored under its own id. */
  predicate Keyed(m: Store)
  {
    forall k :: k in m ==> m[k].id == k
  }
}
