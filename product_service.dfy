/**
 * The product service with its repository: the stored rows live in
 * `products`, keyed by id, and `nextId` is the next value of the identity
 * column. Each method works as the service does, through a freshly loaded
 * entity, its setters and `save`, and is proved against the specification in
 * `CatalogChanges`.
 */
module ProductServices {
  import opened Wrappers
  import opened JavaLang
  import opened Models
  import opened Dtos
  import opened Exceptions
  import opened Validation
  import opened Queries
  import opened CatalogChanges

  class ProductService {
    var products: Catalog
    var nextId: int
    /** How many times the repository's save has run. */
    ghost var writes: nat

    /** Every row is stored under its own id, and ids are generated upwards from 1. */
    ghost predicate Valid()
      reads this
    {
      && WellKeyed(products)
      && 1 <= nextId
      && forall k :: k in products ==> 1 <= k < nextId
    }

    /** An empty catalog whose identity column starts at 1. */
    constructor ()
      ensures Valid() && products == map[] && nextId == 1 && writes == 0
    {
      products := map[];
      nextId := 1;
      writes := 0;
    }

    /** The repository's findById: a newly loaded entity holding the stored row, or nothing. */
    method FindById(id: int) returns (found: Option<ProductEntity>)
      ensures found.Some? <==> id in products
      ensures found.Some? ==> fresh(found.value) && found.value.State() == products[id]
    {
      if id in products {
        var product := new ProductEntity.Hydrate(products[id]);
        found := Some(product);
      } else {
        found := None;
      }
    }

    /**
     * saveProduct, which is the repository's save: an entity without an id
     * is inserted under the next generated id, which is written back into it;
     * an entity whose id is stored overwrites that row; a detached entity
     * whose id is not stored is inserted as a new copy under a generated id.
     */
    method SaveProduct(product: ProductEntity) returns (stored: ProductEntity)
      requires Valid()
      modifies this, product`id
      ensures Valid() && writes == old(writes) + 1
      ensures stored.id.Some?
      ensures products == old(products)[stored.id.value := stored.State()]
      ensures old(product.id).None? ==>
                && stored == product
                && product.State() == old(product.State()).(id := Some(old(nextId)))
                && nextId == old(nextId) + 1
      ensures old(product.id).Some? && old(product.id).value in old(products) ==>
                && stored == product
                && product.State() == old(product.State())
                && nextId == old(nextId)
      ensures old(product.id).Some? && old(product.id).value !in old(products) ==>
                && fresh(stored)
                && stored.State() == old(product.State()).(id := Some(old(nextId)))
                && product.State() == old(product.State())
                && nextId == old(nextId) + 1
    {
      writes := writes + 1;
      if product.id.None? {
        product.id := Some(nextId);
        products := products[nextId := product.State()];
        nextId := nextId + 1;
        stored := product;
      } else if product.id.value in products {
        products := products[product.id.value := product.State()];
        stored := product;
      } else {
        var row := product.State().(id := Some(nextId));
        stored := new ProductEntity.Hydrate(row);
        products := products[nextId := row];
        nextId := nextId + 1;
      }
    }

    /** reduceStock: the catalog becomes `ReduceStockResult`, or stays as it was when that fails. */
    method ReduceStock(productId: int, quantity: Int32) returns (outcome: Outcome<Error>)
      requires Valid()
      modifies this
      ensures Valid() && nextId == old(nextId)
      ensures var spec := ReduceStockResult(old(products), productId, quantity);
        && (spec.Success? ==> outcome == Pass && products == spec.value && writes == old(writes) + 1)
        && (spec.Failure? ==> outcome == Fail(spec.error) && products == old(products) && writes == old(writes))
    {
      var found := FindById(productId);
      if found.None? {
        return Fail(ProductNotFound(productId));
      }
      var product := found.value;
      if product.stock < quantity {
        return Fail(InsufficientStock(productId));
      }
      product.SetStock(Wrap32(product.stock - quantity));
      var _ := SaveProduct(product);
      outcome := Pass;
    }

    /** restockProduct: the catalog becomes `RestockResult`, or stays as it was when that fails. */
    method RestockProduct(productId: int, quantity: Int32) returns (outcome: Outcome<Error>)
      requires Valid()
      modifies this
      ensures Valid() && nextId == old(nextId)
      ensures var spec := RestockResult(old(products), productId, quantity);
        && (spec.Success? ==> outcome == Pass && products == spec.value && writes == old(writes) + 1)
        && (spec.Failure? ==> outcome == Fail(spec.error) && products == old(products) && writes == old(writes))
    {
      var found := FindById(productId);
      if found.None? {
        return Fail(ProductNotFound(productId));
      }
      var product := found.value;
      product.SetStock(Wrap32(product.stock + quantity));
      var _ := SaveProduct(product);
      outcome := Pass;
    }

    /**
     * createNewProduct: a request that passes validation is stored, available,
     * under an id no row had before; a rejected one changes nothing.
     */
    method CreateNewProduct(request: NewProduct) returns (outcome: Outcome<Error>)
      requires Valid()
      modifies this
      ensures Valid()
      ensures outcome == ValidateNewProduct(request)
      ensures outcome.Pass? ==>
                && old(nextId) !in old(products)
                && products == old(products)[old(nextId) := CreatedRecord(old(nextId), request)]
                && nextId == old(nextId) + 1
                && writes == old(writes) + 1
      ensures outcome.Fail? ==> products == old(products) && nextId == old(nextId) && writes == old(writes)
    {
      outcome := ValidateNewProduct(request);
      if outcome.Fail? {
        return;
      }
      var product := new ProductEntity(request.name.value, request.description.value,
                                       request.price, request.stock.value);
      var _ := SaveProduct(product);
    }

    /**
     * updateProductById: on success the stored row and the returned admin view
     * are `UpdateResult`'s record; on failure nothing is written.
     */
    method UpdateProductById(request: UpdateProduct, id: int) returns (r: Result<ProductAdminDTO, Error>)
      requires Valid()
      modifies this
      ensures Valid() && nextId == old(nextId)
      ensures var spec := UpdateResult(old(products), id, request);
        && (spec.Success? ==> r == Success(ToAdminDTO(spec.value)) && products == old(products)[id := spec.value]
                              && writes == old(writes) + 1)
        && (spec.Failure? ==> r == Failure(spec.error) && products == old(products) && writes == old(writes))
    {
      var found := FindById(id);
      if found.None? {
        return Failure(ProductNotFound(id));
      }
      var product := found.value;
      var checked := ValidateUpdatedProduct(request);
      if checked.Fail? {
        return Failure(checked.error);
      }
      var applied := ApplyUpdate(product, request);
      if applied.Fail? {
        return Failure(applied.error);
      }
      var _ := SaveProduct(product);
      r := Success(ToAdminDTO(product.State()));
    }
  }

  /**
   * The field updates of updateProductById on the loaded entity, in the
   * service's order; a null description is dereferenced after the name has
   * been set, which ends the update.
   */
  method ApplyUpdate(product: ProductEntity, request: UpdateProduct) returns (outcome: Outcome<Error>)
    requires request.name.Some? && request.availability.Some?
    modifies product
    ensures outcome.Fail? <==> request.description.None?
    ensures outcome.Fail? ==> outcome.error == NullReference
    ensures outcome.Pass? ==> product.State() == Patch(old(product.State()), request)
  {
    if !IsBlank(request.name.value) {
      product.SetName(request.name.value);
    }
    if request.description.None? {
      return Fail(NullReference);
    }
    if !IsBlank(request.description.value) {
      product.SetDescription(request.description.value);
    }
    if request.price != NullPrice {
      product.SetPrice(request.price);
    }
    if request.stock.Some? {
      product.SetStock(request.stock.value);
    }
    var availability := request.availability.value;
    if !IsBlank(availability) {
      if availability == "false" {
        product.SetAvailable(false);
      }
      if availability == "true" {
        product.SetAvailable(true);
      }
    }
    outcome := Pass;
  }
}
