/**
 * The product record. `ProductEntity` is the mutable object the service
 * loads, changes through its setters and hands back to the repository;
 * `ProductRecord` is the value of all its fields at one moment, which is
 * what the store keeps per id.
 */
module Models {
  import opened Wrappers
  import opened JavaLang

  /**
   * A boxed Java `Double` as the catalog uses it: it is only compared with 0,
   * tested for NaN and copied, so no floating-point arithmetic is modelled.
   */
  datatype Price = NullPrice | NaN | Infinite(positive: bool) | Finite(value: real)

  /** All fields of a product entity; `id` is None until the repository assigns one. */
  datatype ProductRecord = ProductRecord(
    id: Option<int>,
    name: string,
    description: string,
    price: Price,
    stock: Int32,
    available: bool)

  class ProductEntity {
    var id: Option<int>
    var name: string
    var description: string
    var price: Price
    var stock: Int32
    var available: bool

    /** The entity's fields as one value. */
    function State(): ProductRecord
      reads this
    {
      ProductRecord(id, name, description, price, stock, available)
    }

    /**
     * The four-argument constructor: it stores the given fields, leaves `id`
     * unassigned and keeps `available` at its initial value `true` (the
     * constructor's own assignment of `available` is a self-assignment).
     */
    constructor (name: string, description: string, price: Price, stock: Int32)
      ensures State() == ProductRecord(None, name, description, price, stock, true)
    {
      this.id := None;
      this.name := name;
      this.description := description;
      this.price := price;
      this.stock := stock;
      this.available := true;
    }

    /**
     * How the persistence provider materialises a stored row: through the
     * no-argument constructor and field injection, including `id`, for which
     * the class itself has no setter.
     */
    constructor Hydrate(row: ProductRecord)
      ensures State() == row
    {
      this.id := row.id;
      this.name := row.name;
      this.description := row.description;
      this.price := row.price;
      this.stock := row.stock;
      this.available := row.available;
    }

    method SetName(name: string)
      modifies this`name
      ensures State() == old(State()).(name := name)
    {
      this.name := name;
    }

    method SetDescription(description: string)
      modifies this`description
      ensures State() == old(State()).(description := description)
    {
      this.description := description;
    }

    method SetPrice(price: Price)
      modifies this`price
      ensures State() == old(State()).(price := price)
    {
      this.price := price;
    }

    method SetStock(stock: Int32)
      modifies this`stock
      ensures State() == old(State()).(stock := stock)
    {
      this.stock := stock;
    }

    method SetAvailable(available: bool)
      modifies this`available
      ensures State() == old(State()).(available := available)
    {
      this.available := available;
    }
  }
}
