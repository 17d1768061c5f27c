/**
 * What each state-changing operation of the product service does to the
 * catalog, as functions from the catalog before to the catalog after (or the
 * exception thrown, in which case nothing is written). The methods of
 * `ProductServices.ProductService` are proved against these.
 */
module CatalogChanges {
  import opened Wrappers
  import opened JavaLang
  import opened Models
  import opened Dtos
  import opened Exceptions
  import opened Validation
  import opened Queries

  /** reduceStock: NotFound, then the `stock < quantity` guard, then `stock - quantity` in `int` arithmetic. */
  function ReduceStockResult(c: Catalog, id: int, quantity: Int32): (r: Result<Catalog, Error>)
    ensures r.Success? <==> id in c && quantity <= c[id].stock
    ensures id !in c ==> r == Failure(ProductNotFound(id))
    ensures id in c && c[id].stock < quantity ==> r == Failure(InsufficientStock(id))
  {
    if id !in c then Failure(ProductNotFound(id))
    else if c[id].stock < quantity then Failure(InsufficientStock(id))
    else Success(c[id := c[id].(stock := Wrap32(c[id].stock - quantity))])
  }

  /** restockProduct: NotFound, otherwise `stock + quantity` in `int` arithmetic, unchecked. */
  function RestockResult(c: Catalog, id: int, quantity: Int32): (r: Result<Catalog, Error>)
    ensures r.Success? <==> id in c
    ensures id !in c ==> r == Failure(ProductNotFound(id))
  {
    if id !in c then Failure(ProductNotFound(id))
    else Success(c[id := c[id].(stock := Wrap32(c[id].stock + quantity))])
  }

  /** The record createNewProduct inserts under a freshly generated id. */
  function CreatedRecord(id: int, n: NewProduct): (p: ProductRecord)
    requires ValidateNewProduct(n).Pass?
    ensures p.available
  {
    ProductRecord(Some(id), n.name.value, n.description.value, n.price, n.stock.value, true)
  }

  /**
   * The field updates of updateProductById, applied after validation: a blank
   * name or description keeps the old one, a non-null price or stock replaces
   * the old one, and availability is set from "true" or "false".
   */
  function Patch(p: ProductRecord, u: UpdateProduct): (r: ProductRecord)
    requires u.name.Some? && u.description.Some? && u.availability.Some?
    ensures r.id == p.id
  {
    var a := u.availability.value;
    p.(name := if IsBlank(u.name.value) then p.name else u.name.value,
       description := if IsBlank(u.description.value) then p.description else u.description.value,
       price := if u.price == NullPrice then p.price else u.price,
       stock := if u.stock.Some? then u.stock.value else p.stock,
       available := if IsBlank(a) then p.available
                    else if a == "false" then false
                    else if a == "true" then true
                    else p.available)
  }

  /**
   * updateProductById: NotFound before any validation, then the update
   * pipeline, then the field updates. A null description behind a non-blank
   * name passes validation and is dereferenced by the field updates.
   */
  function UpdateResult(c: Catalog, id: int, u: UpdateProduct): (r: Result<ProductRecord, Error>)
    ensures r.Success? ==> id in c && ValidateUpdatedProduct(u).Pass?
    ensures id in c && ValidateUpdatedProduct(u).Pass? && u.description.Some? ==> r.Success?
    ensures id in c && ValidateUpdatedProduct(u).Fail? ==> r == Failure(ValidateUpdatedProduct(u).error)
  {
    if id !in c then Failure(ProductNotFound(id))
    else
      var v := ValidateUpdatedProduct(u);
      if v.Fail? then Failure(v.error)
      else if u.description.None? then Failure(NullReference)
      else Success(Patch(c[id], u))
  }

  // ---- reduceStock and restockProduct ----

  /**
   * A successful reduction changes only the stock of the one product, to
   * `stock - quantity` when that fits in an `int`; every other field and
   * every other product is untouched.
   */
  lemma ReduceStockFrame(c: Catalog, id: int, quantity: Int32)
    requires ReduceStockResult(c, id, quantity).Success?
    ensures var c' := ReduceStockResult(c, id, quantity).value;
      && c'.Keys == c.Keys
      && (forall k :: k in c && k != id ==> c'[k] == c[k])
      && c'[id].(stock := c[id].stock) == c[id]
      && (MinInt32 <= c[id].stock - quantity <= MaxInt32 ==> c'[id].stock == c[id].stock - quantity)
  {
  }

  /**
   * The reduction guard only compares stock with quantity: a negative
   * quantity passes it and raises the stock ...
   */
  lemma NegativeReductionRaisesStock(c: Catalog, id: int, quantity: Int32)
    requires id in c && quantity < 0 && quantity <= c[id].stock
    requires c[id].stock - quantity <= MaxInt32
    ensures ReduceStockResult(c, id, quantity).Success?
    ensures ReduceStockResult(c, id, quantity).value[id].stock > c[id].stock
  {
  }

  /** ... and can even wrap a full stock around to a negative one. */
  lemma NegativeReductionCanWrap(p: ProductRecord)
    requires p.stock == MaxInt32
    ensures var c := map[1 := p];
      ReduceStockResult(c, 1, -1) == Success(map[1 := p.(stock := MinInt32)])
  {
    var c := map[1 := p];
    assert Wrap32(MaxInt32 + 1) == MinInt32;
    assert c[1 := c[1].(stock := MinInt32)] == map[1 := p.(stock := MinInt32)];
  }

  /** With a quantity that is not negative, a non-negative stock stays non-negative. */
  lemma ReduceStockKeepsStockNonNegative(c: Catalog, id: int, quantity: Int32)
    requires id in c && 0 <= quantity && 0 <= c[id].stock
    ensures ReduceStockResult(c, id, quantity).Success? ==>
              ReduceStockResult(c, id, quantity).value[id].stock >= 0
  {
  }

  /** A reduction of exactly the stock leaves the product at zero stock. */
  lemma ReduceStockCanReachZero(c: Catalog, id: int)
    requires id in c && 0 <= c[id].stock
    ensures ReduceStockResult(c, id, c[id].stock) == Success(c[id := c[id].(stock := 0)])
  {
  }

  /**
   * Restocking the quantity a successful reduction took out restores the
   * catalog exactly, for every quantity and even when the reduction wrapped
   * around: the compensation the rollback message asks for undoes the
   * reduction.
   */
  lemma RestockUndoesReduceStock(c: Catalog, id: int, quantity: Int32)
    requires ReduceStockResult(c, id, quantity).Success?
    ensures RestockResult(ReduceStockResult(c, id, quantity).value, id, quantity) == Success(c)
  {
    var c' := ReduceStockResult(c, id, quantity).value;
    WrapSubAdd(c[id].stock, quantity);
    assert c'[id := c'[id].(stock := Wrap32(c'[id].stock + quantity))] == c;
  }

  /** Restocking has no bound and no sign check: it adds any quantity, wrapping at the `int` limits. */
  lemma RestockAddsAnyQuantity(c: Catalog, id: int, quantity: Int32)
    requires id in c
    ensures var c' := RestockResult(c, id, quantity).value;
      && c'.Keys == c.Keys
      && (forall k :: k in c && k != id ==> c'[k] == c[k])
      && c'[id].(stock := c[id].stock) == c[id]
      && (c[id].stock + quantity <= MaxInt32 && MinInt32 <= c[id].stock + quantity
          ==> c'[id].stock == c[id].stock + quantity)
  {
  }

  /** A restock that goes past the largest `int` wraps to a negative stock. */
  lemma RestockCanWrap(p: ProductRecord)
    requires p.stock == MaxInt32
    ensures RestockResult(map[7 := p], 7, 1) == Success(map[7 := p.(stock := MinInt32)])
  {
    var c := map[7 := p];
    assert Wrap32(MaxInt32 + 1) == MinInt32;
    assert c[7 := c[7].(stock := MinInt32)] == map[7 := p.(stock := MinInt32)];
  }

  // ---- createNewProduct ----

  /**
   * A created product reads back with the fields of the request and
   * available = true, and no other lookup changes.
   */
  lemma CreatedProductReadsBack(c: Catalog, id: int, n: NewProduct, other: int)
    requires ValidateNewProduct(n).Pass? && id !in c
    ensures var c' := c[id := CreatedRecord(id, n)];
      && GetProductById(c', id) == Success(ProductRecord(Some(id), n.name.value, n.description.value,
                                                         n.price, n.stock.value, true))
      && (other != id ==> GetProductById(c', other) == GetProductById(c, other))
  {
  }

  // ---- updateProductById ----

  /**
   * After a successful update, price and stock are the requested ones,
   * availability is true exactly when "true" was sent, a blank name or
   * description keeps the old one and a non-blank one replaces it; the id
   * never changes.
   */
  lemma UpdateOutcome(c: Catalog, id: int, u: UpdateProduct)
    requires UpdateResult(c, id, u).Success?
    ensures var p := UpdateResult(c, id, u).value;
      && p.id == c[id].id
      && p.price == u.price && PriceAccepted(p.price)
      && u.stock.Some? && p.stock == u.stock.value && p.stock > 0
      && p.available == (u.availability == Some("true"))
      && u.name.Some? && p.name == (if IsBlank(u.name.value) then c[id].name else u.name.value)
      && u.description.Some?
      && p.description == (if IsBlank(u.description.value) then c[id].description else u.description.value)
  {
    assert !IsBlank("true") by { assert !IsWhitespace("true"[0]); }
    assert !IsBlank("false") by { assert !IsWhitespace("false"[0]); }
  }

  /** Sending the same update again changes nothing more. */
  lemma PatchIdempotent(p: ProductRecord, u: UpdateProduct)
    requires u.name.Some? && u.description.Some? && u.availability.Some?
    ensures Patch(Patch(p, u), u) == Patch(p, u)
  {
  }

  /** An unknown id is reported as NotFound whatever the request holds. */
  lemma UpdateChecksIdFirst(c: Catalog, id: int, u: UpdateProduct)
    requires id !in c
    ensures UpdateResult(c, id, u) == Failure(ProductNotFound(id))
  {
  }

  /**
   * An update that carries only a price does not go through: with the other
   * fields null it fails dereferencing the null name, and with them blank it
   * fails the stock check.
   */
  lemma PriceOnlyUpdateFails(c: Catalog, id: int, price: real)
    requires id in c && price > 0.0
    ensures UpdateResult(c, id, UpdateProduct(None, None, Finite(price), None, None)) == Failure(NullReference)
    ensures UpdateResult(c, id, UpdateProduct(Some(""), Some(""), Finite(price), None, Some("true")))
              == Failure(InvalidStock)
  {
  }

  /**
   * A non-blank name with a null description passes validation and then
   * fails on the description, so nothing is written.
   */
  lemma UpdateNullDescriptionFails(c: Catalog, id: int, u: UpdateProduct)
    requires id in c && ValidateUpdatedProduct(u).Pass? && u.description.None?
    ensures UpdateResult(c, id, u) == Failure(NullReference)
    ensures u.name.Some? && !IsBlank(u.name.value)
  {
  }

  /** An update can never leave a stock of zero, although a reduction can. */
  lemma UpdateNeverSetsZeroStock(c: Catalog, id: int, u: UpdateProduct)
    requires u.stock == Some(0)
    ensures UpdateResult(c, id, u).Failure?
  {
  }
}
