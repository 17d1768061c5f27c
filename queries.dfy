/**
 * The read-only operations of the product service, as functions of the
 * catalog: the table from id to stored product that the repository keeps.
 * The stream pipelines of `getProductsByIds` and `getAllProducts` become
 * sequence comprehensions and filters.
 */
module Queries {
  import opened Wrappers
  import opened JavaLang
  import opened Models
  import opened Dtos
  import opened Exceptions
  import opened IdOrder

  /** The repository's table: id to stored product. */
  type Catalog = map<int, ProductRecord>

  /** Every stored product carries the id it is stored under. */
  ghost predicate WellKeyed(c: Catalog)
  {
    forall k :: k in c ==> c[k].id == Some(k)
  }

  /** No id occurs twice. */
  ghost predicate Distinct(ids: seq<int>)
  {
    forall i, j :: 0 <= i < j < |ids| ==> ids[i] != ids[j]
  }

  /** getProductById: the stored product, or NotFound for an unknown id. */
  function GetProductById(c: Catalog, id: int): (r: Result<ProductRecord, Error>)
    ensures r.Success? <==> id in c
    ensures r.Success? ==> r.value == c[id]
    ensures r.Failure? ==> r.error == ProductNotFound(id)
  {
    if id in c then Success(c[id]) else Failure(ProductNotFound(id))
  }

  /** getProductDTOById: the public view of the stored product, or NotFound. */
  function GetProductDTOById(c: Catalog, id: int): (r: Result<ProductDTO, Error>)
    ensures r.Success? <==> id in c
    ensures r.Success? ==> r.value == ToProductDTO(c[id])
    ensures r.Success? && WellKeyed(c) ==> r.value.id == Some(id)
    ensures r.Failure? ==> r.error == ProductNotFound(id)
  {
    match GetProductById(c, id)
    case Success(p) => Success(ToProductDTO(p))
    case Failure(e) => Failure(e)
  }

  /** getProductStockById: the stored stock, or NotFound. */
  function GetProductStockById(c: Catalog, id: int): (r: Result<Int32, Error>)
    ensures r.Success? <==> id in c
    ensures r.Success? ==> r.value == c[id].stock
    ensures r.Failure? ==> r.error == ProductNotFound(id)
  {
    match GetProductById(c, id)
    case Success(p) => Success(p.stock)
    case Failure(e) => Failure(e)
  }

  /** The stored products whose ids are in `keys`, in the order of `keys`. */
  function RowsAt(c: Catalog, keys: seq<int>): seq<ProductRecord>
    requires forall i :: 0 <= i < |keys| ==> keys[i] in c
  {
    seq(|keys|, i requires 0 <= i < |keys| => c[keys[i]])
  }

  /** `new ProductDTO(...)` applied to each product in turn. */
  function ToProductDTOs(ps: seq<ProductRecord>): seq<ProductDTO>
  {
    seq(|ps|, i requires 0 <= i < |ps| => ToProductDTO(ps[i]))
  }

  /** The ids among `ids` that are stored, each once. */
  function StoredAmong(c: Catalog, ids: seq<int>): set<int>
  {
    set id | id in ids && id in c
  }

  /**
   * The repository's `findByIdIn`: every stored product whose id is requested,
   * once each however often it is requested; in ascending id order.
   */
  function FindByIdIn(c: Catalog, ids: seq<int>): (r: seq<ProductRecord>)
    ensures |r| == |StoredAmong(c, ids)|
    ensures forall i :: 0 <= i < |r| ==> r[i] in c.Values
  {
    RowsAt(c, Ascending(StoredAmong(c, ids)))
  }

  /** The repository's `findAll`: every stored product, in ascending id order. */
  function FindAll(c: Catalog): (r: seq<ProductRecord>)
    ensures |r| == |c|
    ensures forall i :: 0 <= i < |r| ==> r[i] in c.Values
  {
    RowsAt(c, Ascending(c.Keys))
  }

  /** `noneMatch(product -> product.getId().equals(id))` over the products found. */
  predicate NoneMatch(found: seq<ProductRecord>, id: int)
  {
    forall i :: 0 <= i < |found| ==> found[i].id != Some(id)
  }

  /** The requested ids that match no product found, in request order. */
  function MissingIds(ids: seq<int>, found: seq<ProductRecord>): (r: seq<int>)
    ensures |r| <= |ids|
    ensures forall x :: x in r <==> x in ids && NoneMatch(found, x)
  {
    if ids == [] then []
    else (if NoneMatch(found, ids[0]) then [ids[0]] else []) + MissingIds(ids[1..], found)
  }

  /** The requested ids that are not stored, in request order, repeats kept. */
  function NotStored(c: Catalog, ids: seq<int>): (r: seq<int>)
    ensures forall x :: x in r <==> x in ids && x !in c
    ensures (forall i :: 0 <= i < |ids| ==> ids[i] in c) ==> r == []
  {
    if ids == [] then []
    else (if ids[0] !in c then [ids[0]] else []) + NotStored(c, ids[1..])
  }

  /**
   * getProductsByIds: fails, listing the requested ids that match no product
   * found, whenever fewer products are found than ids were requested;
   * otherwise the public view of every product found.
   */
  function GetProductsByIds(c: Catalog, ids: seq<int>): (r: Result<seq<ProductDTO>, Error>)
    ensures r.Success? ==> |r.value| == |ids|
    ensures r.Failure? ==> r.error.ProductsNotFound? && |r.error.missing| <= |ids|
    ensures r.Failure? ==> forall x :: x in r.error.missing ==> x in ids
  {
    var found := FindByIdIn(c, ids);
    if |found| != |ids| then Failure(ProductsNotFound(MissingIds(ids, found)))
    else Success(ToProductDTOs(found))
  }

  /** getAllProducts: the public view of every product; an empty catalog is an error. */
  function GetAllProducts(c: Catalog): (r: Result<seq<ProductDTO>, Error>)
    ensures r.Failure? ==> r == Failure(NoProducts)
    ensures r.Success? ==> |r.value| == |c| > 0
  {
    var products := ToProductDTOs(FindAll(c));
    if |products| == 0 then Failure(NoProducts) else Success(products)
  }

  /** A sequence has at most as many distinct elements as entries, exactly as many when it has no repeats. */
  lemma {:induction false} DistinctCount(ids: seq<int>)
    ensures |set x | x in ids| <= |ids|
    ensures |set x | x in ids| == |ids| <==> Distinct(ids)
  {
    if ids != [] {
      var rest := ids[1..];
      DistinctCount(rest);
      assert (set x | x in ids) == {ids[0]} + (set x | x in rest) by {
        assert forall x :: x in ids <==> x == ids[0] || x in rest;
      }
      if ids[0] in rest {
        var k :| 0 <= k < |rest| && rest[k] == ids[0];
        assert ids[0] == ids[k + 1];
        assert !Distinct(ids);
      } else {
        assert Distinct(ids) <==> Distinct(rest) by {
          if Distinct(rest) {
            forall i, j | 0 <= i < j < |ids| ensures ids[i] != ids[j] {
              if i == 0 { assert ids[j] == rest[j - 1]; }
              else { assert ids[i] == rest[i - 1] && ids[j] == rest[j - 1]; }
            }
          }
          if Distinct(ids) {
            forall i, j | 0 <= i < j < |rest| ensures rest[i] != rest[j] {
              assert rest[i] == ids[i + 1] && rest[j] == ids[j + 1];
            }
          }
        }
      }
    }
  }

  /** In a consistent catalog, a product found for an id is exactly a stored product with that id. */
  lemma FoundMatchesStored(c: Catalog, ids: seq<int>, id: int)
    requires WellKeyed(c)
    ensures !NoneMatch(FindByIdIn(c, ids), id) <==> id in c && id in ids
  {
    var keys := Ascending(StoredAmong(c, ids));
    var found := FindByIdIn(c, ids);
    if id in c && id in ids {
      assert id in StoredAmong(c, ids);
      assert id in keys;
      var i :| 0 <= i < |keys| && keys[i] == id;
      assert found[i].id == Some(id);
    }
    if !NoneMatch(found, id) {
      var i :| 0 <= i < |found| && found[i].id == Some(id);
      assert keys[i] in StoredAmong(c, ids);
    }
  }

  /**
   * The ids reported missing are exactly the requested ids that are not
   * stored, in request order and with repeats kept.
   */
  lemma {:induction false} MissingIdsAreNotStored(c: Catalog, ids: seq<int>, suffix: nat)
    requires WellKeyed(c)
    requires suffix <= |ids|
    ensures MissingIds(ids[suffix..], FindByIdIn(c, ids)) == NotStored(c, ids[suffix..])
    decreases |ids| - suffix
  {
    if suffix < |ids| {
      MissingIdsAreNotStored(c, ids, suffix + 1);
      FoundMatchesStored(c, ids, ids[suffix]);
      assert ids[suffix..][1..] == ids[suffix + 1..];
    }
  }

  /**
   * As many products are found as ids were requested exactly when every
   * requested id is stored and none is requested twice.
   */
  lemma FoundAllRequested(c: Catalog, ids: seq<int>)
    ensures |FindByIdIn(c, ids)| == |ids| <==> Distinct(ids) && forall i :: 0 <= i < |ids| ==> ids[i] in c
  {
    var stored := StoredAmong(c, ids);
    var requested := set x | x in ids;
    DistinctCount(ids);
    assert |FindByIdIn(c, ids)| == |stored|;
    assert stored <= requested;
    assert |requested| == |requested - stored| + |stored| by {
      assert requested * stored == stored;
    }
    if forall i :: 0 <= i < |ids| ==> ids[i] in c {
      assert stored == requested;
    } else {
      var i :| 0 <= i < |ids| && ids[i] !in c;
      assert ids[i] in requested - stored;
    }
  }

  /**
   * getProductsByIds succeeds exactly when every requested id is stored and
   * none is requested twice; a failure lists the requested ids that are not
   * stored, in request order.
   */
  lemma GetProductsByIdsOutcome(c: Catalog, ids: seq<int>)
    requires WellKeyed(c)
    ensures GetProductsByIds(c, ids).Success? <==> Distinct(ids) && forall i :: 0 <= i < |ids| ==> ids[i] in c
    ensures GetProductsByIds(c, ids).Failure? ==> GetProductsByIds(c, ids) == Failure(ProductsNotFound(NotStored(c, ids)))
  {
    FoundAllRequested(c, ids);
    MissingIdsAreNotStored(c, ids, 0);
    assert ids[0..] == ids;
  }

  /**
   * Asking twice for the same stored product fails although nothing is
   * missing: the error then lists no ids at all.
   */
  lemma DuplicateRequestFailsEmpty(c: Catalog, ids: seq<int>)
    requires WellKeyed(c)
    requires forall i :: 0 <= i < |ids| ==> ids[i] in c
    requires !Distinct(ids)
    ensures GetProductsByIds(c, ids) == Failure(ProductsNotFound([]))
  {
    GetProductsByIdsOutcome(c, ids);
  }

  /** On success there is one view per requested id, and it is the view of that stored product. */
  lemma GetProductsByIdsContents(c: Catalog, ids: seq<int>)
    requires WellKeyed(c)
    requires GetProductsByIds(c, ids).Success?
    ensures var r := GetProductsByIds(c, ids).value;
      && |r| == |ids|
      && (forall i :: 0 <= i < |ids| ==> ids[i] in c && ToProductDTO(c[ids[i]]) in r)
      && (forall j :: 0 <= j < |r| ==> r[j].id.Some? && r[j].id.value in ids
                                       && r[j].id.value in c && r[j] == ToProductDTO(c[r[j].id.value]))
  {
    GetProductsByIdsOutcome(c, ids);
    var keys := Ascending(StoredAmong(c, ids));
    var r := GetProductsByIds(c, ids).value;
    forall i | 0 <= i < |ids| ensures ids[i] in c && ToProductDTO(c[ids[i]]) in r {
      assert ids[i] in StoredAmong(c, ids);
      assert ids[i] in keys;
      var k :| 0 <= k < |keys| && keys[k] == ids[i];
      assert r[k] == ToProductDTO(c[ids[i]]);
    }
    forall j | 0 <= j < |r|
      ensures r[j].id.Some? && r[j].id.value in ids && r[j].id.value in c
      ensures r[j] == ToProductDTO(c[r[j].id.value])
    {
      assert keys[j] in StoredAmong(c, ids);
    }
  }

  /** getAllProducts fails, with NoProducts, exactly when the catalog is empty. */
  lemma GetAllProductsFailsIffEmpty(c: Catalog)
    ensures GetAllProducts(c).Failure? <==> c == map[]
    ensures GetAllProducts(c).Failure? ==> GetAllProducts(c).error == NoProducts
  {
    assert |FindAll(c)| == |c.Keys|;
    if c != map[] {
      var k :| k in c;
      assert |c.Keys| > 0 by { assert k in c.Keys; }
    }
  }

  /**
   * On success getAllProducts lists each stored product exactly once, as its
   * public view, in ascending id order.
   */
  lemma GetAllProductsContents(c: Catalog)
    requires WellKeyed(c)
    requires GetAllProducts(c).Success?
    ensures var r := GetAllProducts(c).value;
      && |r| == |c|
      && (forall k :: k in c ==> ToProductDTO(c[k]) in r)
      && (forall j :: 0 <= j < |r| ==> r[j].id.Some? && r[j].id.value in c && r[j] == ToProductDTO(c[r[j].id.value]))
      && (forall i, j :: 0 <= i < j < |r| ==> r[i].id.value < r[j].id.value)
  {
    var keys := Ascending(c.Keys);
    var r := GetAllProducts(c).value;
    assert |c.Keys| == |c|;
    forall k | k in c ensures ToProductDTO(c[k]) in r {
      assert k in c.Keys;
      assert k in keys;
      var i :| 0 <= i < |keys| && keys[i] == k;
      assert r[i] == ToProductDTO(c[k]);
    }
    forall j | 0 <= j < |r| ensures r[j].id == Some(keys[j]) && keys[j] in c {
      assert keys[j] in c.Keys;
    }
  }
}
