/**
 * The validation helpers of the product service and the two ordered
 * pipelines built from them. Each check either passes or throws; a pipeline
 * runs its checks in order and the first one that throws decides the outcome.
 * A null request field is dereferenced by some checks (`name.isBlank()`),
 * which throws a NullPointerException instead of the check's own exception.
 */
module Validation {
  import opened Wrappers
  import opened JavaLang
  import opened Models
  import opened Dtos
  import opened Exceptions

  /** Runs `first`, and `next` only when `first` passed: the first failure wins. */
  function AndThen(first: Outcome<Error>, next: Outcome<Error>): Outcome<Error>
  {
    if first.Fail? then first else next
  }

  /** A price `validateProductPrice` lets through: not null, not NaN and greater than 0. */
  predicate PriceAccepted(p: Price)
  {
    p == Infinite(true) || (p.Finite? && p.value > 0.0)
  }

  /** A stock `validateStock` lets through: not null and greater than 0. */
  predicate StockAccepted(s: Option<Int32>)
  {
    s.Some? && s.value > 0
  }

  /** A present, non-blank text field. */
  predicate Filled(s: Option<string>)
  {
    s.Some? && !IsBlank(s.value)
  }

  /** validateProductPrice: null, NaN or not greater than 0 is rejected. */
  function ValidateProductPrice(price: Price): (r: Outcome<Error>)
    ensures r.Pass? <==> PriceAccepted(price)
    ensures r.Fail? ==> r.error == InvalidPrice
  {
    match price
    case NullPrice => Fail(InvalidPrice)
    case NaN => Fail(InvalidPrice)
    case Infinite(positive) => if positive then Pass else Fail(InvalidPrice)
    case Finite(v) => if v <= 0.0 then Fail(InvalidPrice) else Pass
  }

  /** validateStock: null or not greater than 0 is rejected. */
  function ValidateStock(stock: Option<Int32>): (r: Outcome<Error>)
    ensures r.Pass? <==> StockAccepted(stock)
    ensures r.Fail? ==> r.error == InvalidStock
  {
    if stock.None? || stock.value <= 0 then Fail(InvalidStock) else Pass
  }

  /** validateAvailabilty: only the exact strings "true" and "false" pass; null throws on `equals`. */
  function ValidateAvailability(availability: Option<string>): (r: Outcome<Error>)
    ensures r.Pass? <==> availability == Some("true") || availability == Some("false")
    ensures availability.None? ==> r == Fail(NullReference)
    ensures availability.Some? && r.Fail? ==> r == Fail(AllBlanks(BadAvailability))
  {
    match availability
    case None => Fail(NullReference)
    case Some(a) =>
      if a != "true" && a != "false" then Fail(AllBlanks(BadAvailability)) else Pass
  }

  /**
   * validateAllBlanks: throws when name and description are blank and price
   * and stock are null. The `&&` chain dereferences name, and description only
   * when name is blank.
   */
  function ValidateAllBlanks(name: Option<string>, description: Option<string>,
                             price: Price, stock: Option<Int32>): (r: Outcome<Error>)
    ensures r == Fail(AllBlanks(NothingToModify)) <==>
              name.Some? && IsBlank(name.value) && description.Some? && IsBlank(description.value)
              && price == NullPrice && stock.None?
    ensures r == Fail(NullReference) <==>
              name.None? || (IsBlank(name.value) && description.None?)
    ensures r.Pass? || r == Fail(NullReference) || r == Fail(AllBlanks(NothingToModify))
  {
    match name
    case None => Fail(NullReference)
    case Some(n) =>
      if !IsBlank(n) then Pass
      else
        match description
        case None => Fail(NullReference)
        case Some(d) =>
          if IsBlank(d) && price == NullPrice && stock.None? then Fail(AllBlanks(NothingToModify))
          else Pass
  }

  /**
   * validateMissingInfo: throws when name or description is blank or price or
   * stock is null. The `||` chain dereferences name, and description only
   * when name is not blank.
   */
  function ValidateMissingInfo(name: Option<string>, description: Option<string>,
                               price: Price, stock: Option<Int32>): (r: Outcome<Error>)
    ensures r.Pass? <==> Filled(name) && Filled(description) && price != NullPrice && stock.Some?
    ensures r == Fail(NullReference) <==>
              name.None? || (!IsBlank(name.value) && description.None?)
    ensures r.Pass? || r == Fail(NullReference) || r == Fail(AllBlanks(MissingInfo))
  {
    match name
    case None => Fail(NullReference)
    case Some(n) =>
      if IsBlank(n) then Fail(AllBlanks(MissingInfo))
      else
        match description
        case None => Fail(NullReference)
        case Some(d) =>
          if IsBlank(d) || price == NullPrice || stock.None? then Fail(AllBlanks(MissingInfo))
          else Pass
  }

  /** validateNewProduct: missing information, then price, then stock. */
  function ValidateNewProduct(p: NewProduct): (r: Outcome<Error>)
    ensures r.Pass? <==>
              Filled(p.name) && Filled(p.description) && PriceAccepted(p.price) && StockAccepted(p.stock)
  {
    AndThen(ValidateMissingInfo(p.name, p.description, p.price, p.stock),
    AndThen(ValidateProductPrice(p.price),
            ValidateStock(p.stock)))
  }

  /** validateUpdatedProduct: price, then all-blank, then stock, then availability. */
  function ValidateUpdatedProduct(u: UpdateProduct): (r: Outcome<Error>)
    ensures r.Pass? <==>
              PriceAccepted(u.price) && u.name.Some? && (IsBlank(u.name.value) ==> u.description.Some?)
              && StockAccepted(u.stock) && (u.availability == Some("true") || u.availability == Some("false"))
  {
    AndThen(ValidateProductPrice(u.price),
    AndThen(ValidateAllBlanks(u.name, u.description, u.price, u.stock),
    AndThen(ValidateStock(u.stock),
            ValidateAvailability(u.availability))))
  }

  /**
   * On creation a blank or missing field is reported as such whatever the
   * price and stock are, and a bad price is reported before a bad stock.
   */
  lemma NewProductCheckOrder(p: NewProduct)
    ensures ValidateMissingInfo(p.name, p.description, p.price, p.stock).Fail?
            ==> ValidateNewProduct(p) == ValidateMissingInfo(p.name, p.description, p.price, p.stock)
    ensures p.name.Some? && IsBlank(p.name.value) ==> ValidateNewProduct(p) == Fail(AllBlanks(MissingInfo))
    ensures (ValidateMissingInfo(p.name, p.description, p.price, p.stock).Pass? && !PriceAccepted(p.price))
            ==> ValidateNewProduct(p) == Fail(InvalidPrice)
    ensures (ValidateMissingInfo(p.name, p.description, p.price, p.stock).Pass? && PriceAccepted(p.price)
             && !StockAccepted(p.stock))
            ==> ValidateNewProduct(p) == Fail(InvalidStock)
  {
  }

  /**
   * On update the price is checked first, so a null price is always reported
   * as an invalid price, before anything else is looked at.
   */
  lemma UpdateRejectsNullPrice(u: UpdateProduct)
    requires u.price == NullPrice
    ensures ValidateUpdatedProduct(u) == Fail(InvalidPrice)
  {
  }

  /**
   * On update the checks run price, then all-blank, then stock, then
   * availability, and the first failure is the one reported.
   */
  lemma UpdateCheckOrder(u: UpdateProduct)
    ensures !PriceAccepted(u.price) ==> ValidateUpdatedProduct(u) == Fail(InvalidPrice)
    ensures (PriceAccepted(u.price) && ValidateAllBlanks(u.name, u.description, u.price, u.stock).Fail?)
            ==> ValidateUpdatedProduct(u) == ValidateAllBlanks(u.name, u.description, u.price, u.stock)
    ensures (PriceAccepted(u.price) && ValidateAllBlanks(u.name, u.description, u.price, u.stock).Pass?
             && !StockAccepted(u.stock))
            ==> ValidateUpdatedProduct(u) == Fail(InvalidStock)
    ensures (PriceAccepted(u.price) && ValidateAllBlanks(u.name, u.description, u.price, u.stock).Pass?
             && StockAccepted(u.stock))
            ==> ValidateUpdatedProduct(u) == ValidateAvailability(u.availability)
  {
  }

  /**
   * Because the update pipeline rejects a null price before the all-blank
   * check runs, the all-blank error can never come out of it ...
   */
  lemma UpdateNeverReportsNothingToModify(u: UpdateProduct)
    ensures ValidateUpdatedProduct(u) != Fail(AllBlanks(NothingToModify))
  {
  }

  /** ... although the all-blank check on its own does fire on an all-blank request. */
  lemma AllBlanksFiresAlone()
    ensures ValidateAllBlanks(Some(""), Some(""), NullPrice, None) == Fail(AllBlanks(NothingToModify))
  {
  }

  /**
   * Every error the update pipeline can report, in pipeline order: a bad
   * price, a null name (or a null description behind a blank name), a bad
   * stock, then a null or unknown availability.
   */
  lemma UpdateErrors(u: UpdateProduct)
    ensures var r := ValidateUpdatedProduct(u);
      r.Fail? ==> r.error in {InvalidPrice, NullReference, InvalidStock, AllBlanks(BadAvailability)}
  {
  }
}
