/**
 * The listener on the rollback queue: a message `productId,quantity` asks
 * for `quantity` units to be put back on a product, compensating a stock
 * reduction made for an order that did not go through.
 */
module StockRollback {
  import opened Wrappers
  import opened JavaLang
  import opened JavaText
  import opened Models
  import opened Exceptions
  import opened Dtos
  import opened Validation
  import opened Queries
  import opened CatalogChanges
  import opened ProductServices

  /** What escapes the listener before the service is called: a missing field or a field that is not a number. */
  datatype ParseError = MissingField(index: nat) | NotANumber(text: string)

  datatype RestockRequest = RestockRequest(productId: Int64, quantity: Int32)

  /**
   * How a delivery ends: the message was consumed (an exception from the
   * service is caught and only logged), or a parse error escaped the
   * listener.
   */
  datatype Delivery = Consumed(caught: Option<Error>) | Rejected(error: ParseError)

  /**
   * The message fields in the order the listener reads them: field 0 as a
   * `long`, then field 1 as an `int`; fields after the second are ignored.
   */
  function ParseRollbackMessage(message: string): (r: Result<RestockRequest, ParseError>)
    ensures r.Success? ==> |Split(message)| >= 2
    ensures r.Success? ==> ParseDecimal(Split(message)[0]) == Some(r.value.productId as int)
    ensures r.Success? ==> ParseDecimal(Split(message)[1]) == Some(r.value.quantity as int)
    ensures |Split(message)| >= 2 && ParseLong(Split(message)[0]).Some? && ParseInt(Split(message)[1]).Some?
            ==> r == Success(RestockRequest(ParseLong(Split(message)[0]).value, ParseInt(Split(message)[1]).value))
  {
    var data := Split(message);
    if |data| < 1 then Failure(MissingField(0))
    else
      match ParseLong(data[0])
      case None => Failure(NotANumber(data[0]))
      case Some(productId) =>
        if |data| < 2 then Failure(MissingField(1))
        else
          match ParseInt(data[1])
          case None => Failure(NotANumber(data[1]))
          case Some(quantity) => Success(RestockRequest(productId, quantity))
  }

  /** The message a producer writes for a product id and a quantity. */
  function RollbackMessage(productId: Int64, quantity: Int32): string
  {
    ShowInt(productId) + "," + ShowInt(quantity)
  }

  /** A message written as `id,quantity`, with or without further fields, is read back as that request. */
  lemma ReadsWhatWasWritten(productId: Int64, quantity: Int32, tail: string)
    requires tail == [] || tail[0] == ','
    ensures ParseRollbackMessage(RollbackMessage(productId, quantity) + tail)
              == Success(RestockRequest(productId, quantity))
  {
    var a := ShowInt(productId);
    var b := ShowInt(quantity);
    SplitOfPair(a, b, tail);
    ParseShowInt(productId);
    ParseShowInt(quantity);
    var data := Split(a + "," + b + tail);
    assert data[0] == a && data[1] == b;
  }

  /** A message without a comma is one field: a number in it is read as the id and then field 1 is missing. */
  lemma SingleFieldRejected(message: string)
    requires ',' !in message && ParseLong(message).Some?
    ensures ParseRollbackMessage(message) == Failure(MissingField(1))
  {
  }

  /** A message with an empty quantity, such as "5,", loses its trailing empty field and misses field 1. */
  lemma EmptyQuantityRejected(id: string)
    requires ',' !in id && ParseLong(id).Some?
    ensures ParseRollbackMessage(id + ",") == Failure(MissingField(1))
  {
    var s := id + ",";
    assert s[|id|] == ',';
    FieldsAfterPlainPrefix(id, ",");
    FieldsAfterComma("");
    assert "," == "," + "";
    assert Fields("") == [""];
    assert Fields(",") == ["", ""];
    assert id + "" == id;
    assert Fields(s) == [id, ""];
    assert DropTrailingEmpty([id, ""]) == [id] by {
      assert [id, ""][..1] == [id];
    }
  }

  /** A message made only of commas splits into no fields at all. */
  lemma OnlyCommaRejected()
    ensures ParseRollbackMessage(",") == Failure(MissingField(0))
  {
    FieldsAfterComma("");
    assert "," == "," + "";
    assert Fields(",") == ["", ""];
    assert DropTrailingEmpty(["", ""]) == [] by {
      assert ["", ""][..1] == [""];
      assert [""][..0] == [];
    }
  }

  /** A non-numeric id is reported before the quantity is looked at. */
  lemma NonNumericIdRejected(quantity: Int32)
    ensures ParseRollbackMessage("abc," + ShowInt(quantity)) == Failure(NotANumber("abc"))
  {
    assert "abc," + ShowInt(quantity) == "abc" + "," + ShowInt(quantity) + [];
    SplitOfPair("abc", ShowInt(quantity), []);
    assert !IsDigit("abc"[0]);
  }

  /**
   * The rollback message for a reduction that went through, once consumed,
   * puts the catalog back as it was before the reduction.
   */
  lemma RollbackUndoesReduction(c: Catalog, productId: Int64, quantity: Int32)
    requires ReduceStockResult(c, productId, quantity).Success?
    ensures var request := ParseRollbackMessage(RollbackMessage(productId, quantity));
      && request.Success?
      && RestockResult(ReduceStockResult(c, productId, quantity).value,
                       request.value.productId, request.value.quantity) == Success(c)
  {
    ReadsWhatWasWritten(productId, quantity, []);
    assert RollbackMessage(productId, quantity) + [] == RollbackMessage(productId, quantity);
    RestockUndoesReduceStock(c, productId, quantity);
  }

  /**
   * Nothing identifies a message as already handled: the same rollback
   * delivered twice restocks twice.
   */
  lemma RedeliveryRestocksTwice(c: Catalog, productId: Int64, quantity: Int32)
    requires productId in c
    requires MinInt32 <= c[productId].stock + 2 * quantity <= MaxInt32
    requires MinInt32 <= c[productId].stock + quantity <= MaxInt32
    ensures var once := RestockResult(c, productId, quantity).value;
      RestockResult(once, productId, quantity).value[productId].stock == c[productId].stock + 2 * quantity
  {
  }

  class RollbackConsumer {
    const productService: ProductService

    constructor (productService: ProductService)
      ensures this.productService == productService
    {
      this.productService := productService;
    }

    /**
     * rollbackStock: a message that does not parse escapes and changes
     * nothing; otherwise the product is restocked, and a failure of the
     * service is caught, so the message counts as consumed either way.
     */
    method RollbackStock(message: string) returns (delivery: Delivery)
      requires productService.Valid()
      modifies productService
      ensures productService.Valid() && productService.nextId == old(productService.nextId)
      ensures var parsed := ParseRollbackMessage(message);
        && (parsed.Failure? ==> delivery == Rejected(parsed.error)
                                 && productService.products == old(productService.products)
                                 && productService.writes == old(productService.writes))
        && (parsed.Success? ==>
              var spec := RestockResult(old(productService.products), parsed.value.productId, parsed.value.quantity);
              && (spec.Success? ==> delivery == Consumed(None) && productService.products == spec.value
                                     && productService.writes == old(productService.writes) + 1)
              && (spec.Failure? ==> delivery == Consumed(Some(spec.error))
                                     && productService.products == old(productService.products)
                                     && productService.writes == old(productService.writes)))
    {
      var parsed := ParseRollbackMessage(message);
      if parsed.Failure? {
        return Rejected(parsed.error);
      }
      var outcome := productService.RestockProduct(parsed.value.productId, parsed.value.quantity);
      if outcome.Fail? {
        delivery := Consumed(Some(outcome.error));
      } else {
        delivery := Consumed(None);
      }
    }
  }

  /**
   * A product created with stock 5 is reduced by 3 to 2; a second reduction
   * by 3 is refused and leaves 2; the rollback message for the first
   * reduction brings the stock back to 5.
   */
  method WidgetScenario() returns (afterReduce: Int32, secondReduce: Outcome<Error>, afterRollback: Int32)
    ensures afterReduce == 2
    ensures secondReduce == Fail(InsufficientStock(1))
    ensures afterRollback == 5
  {
    var service := new ProductService();
    assert !IsBlank("Widget") by { assert !IsWhitespace("Widget"[0]); }
    assert !IsBlank("A widget") by { assert !IsWhitespace("A widget"[0]); }
    var created := service.CreateNewProduct(NewProduct(Some("Widget"), Some("A widget"), Finite(10.0), Some(5)));
    assert 1 in service.products && service.products[1].stock == 5;
    var first := service.ReduceStock(1, 3);
    afterReduce := service.products[1].stock;
    secondReduce := service.ReduceStock(1, 3);
    var consumer := new RollbackConsumer(service);
    ReadsWhatWasWritten(1, 3, []);
    assert RollbackMessage(1, 3) + [] == RollbackMessage(1, 3);
    var delivery := consumer.RollbackStock(RollbackMessage(1, 3));
    afterRollback := service.products[1].stock;
  }
}
