/**
 * The read-only projections of a product that the service hands out, and
 * the two request bodies it accepts.
 */
module Dtos {
  import opened Wrappers
  import opened JavaLang
  import opened Models

  /** The public view of a product: everything except availability. */
  datatype ProductDTO = ProductDTO(
    id: Option<int>,
    name: string,
    description: string,
    price: Price,
    stock: Int32)

  /** The administrator's view of a product: every field. */
  datatype ProductAdminDTO = ProductAdminDTO(
    id: Option<int>,
    name: string,
    description: string,
    price: Price,
    stock: Int32,
    availability: bool)

  /** Body of a create request; every field may be null. */
  datatype NewProduct = NewProduct(
    name: Option<string>,
    description: Option<string>,
    price: Price,
    stock: Option<Int32>)

  /** Body of an update request; every field may be null. */
  datatype UpdateProduct = UpdateProduct(
    name: Option<string>,
    description: Option<string>,
    price: Price,
    stock: Option<Int32>,
    availability: Option<string>)

  /** `new ProductDTO(product)`: copies id, name, description, price and stock. */
  function ToProductDTO(p: ProductRecord): (d: ProductDTO)
    ensures d == Narrow(ToAdminDTO(p))
  {
    ProductDTO(p.id, p.name, p.description, p.price, p.stock)
  }

  /** `new ProductAdminDTO(product)`: copies every field. */
  function ToAdminDTO(p: ProductRecord): (d: ProductAdminDTO)
    ensures AdminDTORecord(d) == p
  {
    ProductAdminDTO(p.id, p.name, p.description, p.price, p.stock, p.available)
  }

  /** Reads the record back out of an administrator's view (the view's inverse). */
  function AdminDTORecord(d: ProductAdminDTO): ProductRecord
  {
    ProductRecord(d.id, d.name, d.description, d.price, d.stock, d.availability)
  }

  /** The public view is the administrator's view with availability dropped. */
  function Narrow(d: ProductAdminDTO): ProductDTO
  {
    ProductDTO(d.id, d.name, d.description, d.price, d.stock)
  }

  /** Every field of the public view equals the entity's field of the same name. */
  lemma ProductDTOCopiesFields(p: ProductRecord)
    ensures var d := ToProductDTO(p);
      d.id == p.id && d.name == p.name && d.description == p.description
      && d.price == p.price && d.stock == p.stock
  {
  }

  /** Every field of the administrator's view equals the entity's, availability included. */
  lemma AdminDTOCopiesFields(p: ProductRecord)
    ensures var d := ToAdminDTO(p);
      d.id == p.id && d.name == p.name && d.description == p.description
      && d.price == p.price && d.stock == p.stock && d.availability == p.available
  {
  }

  /**
   * Two records have the same public view exactly when they agree on every
   * field except availability: availability is not observable through it.
   */
  lemma ProductDTOHidesOnlyAvailability(p: ProductRecord, q: ProductRecord)
    ensures ToProductDTO(p) == ToProductDTO(q) <==> p.(available := q.available) == q
  {
  }

}
