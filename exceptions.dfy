/** The exceptions the catalog operations throw, as one error type. */
module Exceptions {

  /** Which of the checks that throw `AllBlanksException` fired. */
  datatype BlankCheck =
    | MissingInfo      // create: a required field is blank or null ("All fields are required.")
    | NothingToModify  // update: every field blank or null ("At least one value has to be modified.")
    | BadAvailability  // update: availability neither "true" nor "false" (same message as NothingToModify)

  datatype Error =
    | ProductNotFound(id: int)             // NoProductsFoundException for one id
    | ProductsNotFound(missing: seq<int>)  // NoProductsFoundException listing requested ids
    | NoProducts                           // NoProductsFoundException: the catalog is empty
    | AllBlanks(check: BlankCheck)         // AllBlanksException
    | InvalidPrice                         // ProductPriceException
    | InvalidStock                         // StockException from validation
    | InsufficientStock(productId: int)    // StockException from reduceStock
    | NullReference                        // NullPointerException from a null request field
}
