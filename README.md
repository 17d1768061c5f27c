# Product catalog service — Dafny model

This project models the core of a Spring Boot product catalog service. The service stores products, each with an id, a name, a description, a price, a stock count and an availability flag. It serves lookups, reduces and restocks stock, and creates and updates products through two validation pipelines. A message listener puts stock back when an order is rolled back. The model covers:

- `Models.ProductEntity`: the mutable JPA entity, with its constructor and setters.
- `Dtos`: the two read-only projections.
- `Validation`: the `validate*` helpers, with Java's null dereferences made explicit as `NullReference` errors.
- `Queries`: the read-only service operations, as functions of the catalog.
- `CatalogChanges`: the state-changing operations, as functions from catalog to catalog.
- `ProductServices.ProductService`: the service with its repository. The stored rows are a `map` from id to record, and `nextId` stands for the identity column. Its methods load an entity, change it through setters and save it, as the service does. Each method is proved against the matching `CatalogChanges` function.
- `StockRollback`: the rollback listener, with Java's `split(",")`, `Long.parseLong` and `Integer.parseInt` (in `JavaText`).

Java's `int` stock arithmetic wraps around. It is modelled with `JavaLang.Wrap32`. A price is a boxed `Double` that the code only null-checks, NaN-checks, compares with 0 and copies, so it is the datatype `Models.Price`. Exceptions become `Exceptions.Error` values returned in a `Result` or `Outcome`. When a method returns a failure, nothing has been written.

Behaviour of the code that is easy to misread:

- A price of +Infinity passes `validateProductPrice`. The check only rejects null, NaN and values `<= 0`.
- An update that carries only a price does not go through. With the other fields null, `validateAllBlanks` dereferences the null name. With them blank, `validateStock` rejects the null stock. See `CatalogChanges.PriceOnlyUpdateFails`.
- A rollback message that fails to parse escapes the listener. The `NumberFormatException` or `ArrayIndexOutOfBoundsException` is raised before the `try` block, and restock is never called. See `StockRollback.RollbackConsumer.RollbackStock`.
- The update pipeline validates the price first. A null price is therefore always reported as an invalid price, and the `validateAllBlanks` check never fails during an update. The same exception type and message can still come from `validateAvailabilty` for an availability other than "true" or "false". See `Validation.UpdateNeverReportsNothingToModify`.

## Model

| member | source | states |
|---|---|---|
| Models.ProductEntity.constructor | src/main/java/com/example/product_service/models/ProductEntity.java:18-28 | the new entity holds the given name, description, price and stock; it has no id; and it is available, because the constructor assigns `available` to itself and the field initialiser's `true` stays |
| Models.ProductEntity.Hydrate | src/main/java/com/example/product_service/models/ProductEntity.java:11-20 | a row loaded by the persistence provider (no-argument constructor plus field injection, id included) holds exactly the stored values |
| Models.ProductEntity.SetName | src/main/java/com/example/product_service/models/ProductEntity.java:38-40 | changes the name and no other field, id included |
| Models.ProductEntity.SetDescription | src/main/java/com/example/product_service/models/ProductEntity.java:46-48 | changes the description and no other field |
| Models.ProductEntity.SetPrice | src/main/java/com/example/product_service/models/ProductEntity.java:54-56 | changes the price and no other field |
| Models.ProductEntity.SetStock | src/main/java/com/example/product_service/models/ProductEntity.java:62-64 | changes the stock and no other field |
| Models.ProductEntity.SetAvailable | src/main/java/com/example/product_service/models/ProductEntity.java:70-72 | changes availability and no other field |
| Dtos.ToProductDTO | src/main/java/com/example/product_service/dtos/ProductDTO.java:12-18 | the public view is the admin view of the same entity without availability |
| Dtos.ToAdminDTO | src/main/java/com/example/product_service/dtos/ProductAdminDTO.java:13-20 | the admin view loses nothing: the record can be rebuilt from it |
| Dtos.ProductDTOCopiesFields | src/main/java/com/example/product_service/dtos/ProductDTO.java:12-18 | the public view's id, name, description, price and stock equal the entity's |
| Dtos.ProductDTOHidesOnlyAvailability | src/main/java/com/example/product_service/dtos/ProductDTO.java:7-10 | two records have the same public view exactly when they differ at most in availability, so availability cannot be observed through it |
| Dtos.AdminDTOCopiesFields | src/main/java/com/example/product_service/dtos/ProductAdminDTO.java:13-20 | the admin view's fields equal the entity's, and its availability equals `isAvailable()` |
| Validation.ValidateProductPrice | src/main/java/com/example/product_service/services/ProductServiceImpl.java:198-202 | passes exactly for a positive price (+Infinity included); null, NaN, zero and negative prices give InvalidPrice |
| Validation.ValidateStock | src/main/java/com/example/product_service/services/ProductServiceImpl.java:204-208 | passes exactly for a non-null stock `> 0`; otherwise InvalidStock |
| Validation.ValidateAvailability | src/main/java/com/example/product_service/services/ProductServiceImpl.java:174-178 | passes exactly for "true" and "false"; any other text fails as an all-blank error; null is dereferenced |
| Validation.ValidateAllBlanks | src/main/java/com/example/product_service/services/ProductServiceImpl.java:180-184 | fails only when the name and description are blank and the price and stock are null; a null name, or a null description behind a blank name, is dereferenced first |
| Validation.ValidateMissingInfo | src/main/java/com/example/product_service/services/ProductServiceImpl.java:192-196 | fails with missing info for a blank name or description or a null price or stock; a null name, or a null description behind a non-blank name, is dereferenced |
| Validation.ValidateNewProduct | src/main/java/com/example/product_service/services/ProductServiceImpl.java:186-190 | passes exactly when the name and description are non-blank, the price is positive and the stock is positive |
| Validation.ValidateUpdatedProduct | src/main/java/com/example/product_service/services/ProductServiceImpl.java:167-172 | passes exactly when the price is positive, the name is non-null (and so is the description, when the name is blank), the stock is positive and availability is "true" or "false" |
| Validation.NewProductCheckOrder | src/main/java/com/example/product_service/services/ProductServiceImpl.java:186-190 | creation checks run missing info, then price, then stock, and the first failure is the one reported: any missing-info failure (blank name or description, null price or stock, or a null dereference) is reported as such whatever the price and stock are |
| Validation.UpdateCheckOrder | src/main/java/com/example/product_service/services/ProductServiceImpl.java:167-172 | update checks run price, then all-blank, then stock, then availability, and the first failure is the one reported |
| Validation.UpdateRejectsNullPrice | src/main/java/com/example/product_service/services/ProductServiceImpl.java:167-169 | on update a null price is always reported as InvalidPrice, before any other check |
| Validation.UpdateNeverReportsNothingToModify | src/main/java/com/example/product_service/services/ProductServiceImpl.java:167-172 | the `validateAllBlanks` failure can never come out of the update pipeline, because a null price is rejected before it runs |
| Validation.AllBlanksFiresAlone | src/main/java/com/example/product_service/services/ProductServiceImpl.java:180-184 | on its own, the all-blank check does fire for blank texts with a null price and stock |
| Validation.UpdateErrors | src/main/java/com/example/product_service/services/ProductServiceImpl.java:167-178 | the update pipeline reports only InvalidPrice, a null dereference, InvalidStock or a bad availability |
| Queries.GetProductById | src/main/java/com/example/product_service/services/ProductServiceImpl.java:22-25 | the stored product for a stored id, NotFound with that id otherwise; the catalog is only read |
| Queries.GetProductDTOById | src/main/java/com/example/product_service/services/ProductServiceImpl.java:28-31 | the public view of the stored product, whose id is the requested id; NotFound otherwise |
| Queries.GetProductStockById | src/main/java/com/example/product_service/services/ProductServiceImpl.java:67-72 | the stored stock, or NotFound |
| Queries.FindByIdIn | src/main/java/com/example/product_service/services/ProductServiceImpl.java:35 | one stored product per distinct stored requested id, each a stored row |
| Queries.FindAll | src/main/java/com/example/product_service/services/ProductServiceImpl.java:101 | one row per stored product, each a stored row |
| Queries.MissingIds | src/main/java/com/example/product_service/services/ProductServiceImpl.java:39-41 | exactly the requested ids that match no product found, and no more entries than were requested |
| Queries.GetProductsByIds | src/main/java/com/example/product_service/services/ProductServiceImpl.java:34-50 | on success one view per requested id; on failure a not-found error listing only requested ids |
| Queries.GetAllProducts | src/main/java/com/example/product_service/services/ProductServiceImpl.java:99-111 | on success one view per stored product, at least one; otherwise the NotFound error for an empty catalog |
| Queries.NotStored | src/main/java/com/example/product_service/services/ProductServiceImpl.java:39-41 | the requested ids that are not stored, in request order, repeats kept |
| Queries.FoundMatchesStored | src/main/java/com/example/product_service/services/ProductServiceImpl.java:35-40 | some found product has a given id exactly when that id was requested and is stored |
| Queries.MissingIdsAreNotStored | src/main/java/com/example/product_service/services/ProductServiceImpl.java:39-41 | the `noneMatch` filter over the found products yields exactly the requested ids that are not stored |
| Queries.DistinctCount | src/main/java/com/example/product_service/services/ProductServiceImpl.java:37 | a list of ids names at most as many distinct ids as it has entries, and exactly as many when it has no repeats |
| Queries.FoundAllRequested | src/main/java/com/example/product_service/services/ProductServiceImpl.java:35-37 | the found count equals the requested count exactly when the request has no repeated id and every requested id is stored |
| Queries.GetProductsByIdsOutcome | src/main/java/com/example/product_service/services/ProductServiceImpl.java:34-50 | succeeds exactly when every requested id is stored and none repeats; otherwise it fails listing exactly the unstored requested ids, in request order |
| Queries.DuplicateRequestFailsEmpty | src/main/java/com/example/product_service/services/ProductServiceImpl.java:37-44 | a request that repeats a stored id fails with an empty list of missing ids |
| Queries.GetProductsByIdsContents | src/main/java/com/example/product_service/services/ProductServiceImpl.java:47-49 | on success, one public view per requested product, each that of a stored, requested product |
| Queries.GetAllProductsFailsIffEmpty | src/main/java/com/example/product_service/services/ProductServiceImpl.java:99-111 | fails with NotFound exactly when the catalog is empty |
| Queries.GetAllProductsContents | src/main/java/com/example/product_service/services/ProductServiceImpl.java:101-110 | on success, exactly one public view per stored product, in ascending id order |
| CatalogChanges.ReduceStockResult | src/main/java/com/example/product_service/services/ProductServiceImpl.java:75-86 | succeeds exactly for a stored id whose stock is at least the quantity; an absent id gives NotFound, and a stock below the quantity gives InsufficientStock |
| CatalogChanges.RestockResult | src/main/java/com/example/product_service/services/ProductServiceImpl.java:89-96 | succeeds exactly for a stored id, whatever the quantity; an absent id gives NotFound |
| CatalogChanges.UpdateResult | src/main/java/com/example/product_service/services/ProductServiceImpl.java:127-163 | succeeds exactly for a stored id, a request that passes the update pipeline and a non-null description; a stored id with a failing request gives the pipeline's own error |
| CatalogChanges.ReduceStockFrame | src/main/java/com/example/product_service/services/ProductServiceImpl.java:75-86 | a successful reduction changes only the stock of that one product, to `stock - quantity` when that fits in an `int` |
| CatalogChanges.NegativeReductionRaisesStock | src/main/java/com/example/product_service/services/ProductServiceImpl.java:80-84 | a negative quantity is not rejected and raises the stock |
| CatalogChanges.NegativeReductionCanWrap | src/main/java/com/example/product_service/services/ProductServiceImpl.java:80-84 | reducing the largest `int` stock by -1 wraps it to the smallest `int` |
| CatalogChanges.ReduceStockKeepsStockNonNegative | src/main/java/com/example/product_service/services/ProductServiceImpl.java:80-84 | with a quantity `>= 0`, a non-negative stock stays non-negative |
| CatalogChanges.ReduceStockCanReachZero | src/main/java/com/example/product_service/services/ProductServiceImpl.java:80-84 | reducing by exactly the stock leaves zero stock |
| CatalogChanges.RestockUndoesReduceStock | src/main/java/com/example/product_service/services/ProductServiceImpl.java:75-96 | restocking the quantity a successful reduction took restores the whole catalog, even through wrap-around |
| CatalogChanges.RestockAddsAnyQuantity | src/main/java/com/example/product_service/services/ProductServiceImpl.java:89-96 | a restock changes only that product's stock, to `stock + quantity` when that fits in an `int`, with no sign or bound check |
| CatalogChanges.RestockCanWrap | src/main/java/com/example/product_service/services/ProductServiceImpl.java:93 | restocking the largest `int` stock by 1 wraps it to the smallest `int` |
| CatalogChanges.CreatedRecord | src/main/java/com/example/product_service/services/ProductServiceImpl.java:113-118 | a created product is available |
| CatalogChanges.CreatedProductReadsBack | src/main/java/com/example/product_service/services/ProductServiceImpl.java:113-118 | after insertion, a lookup of the new id returns the request's fields with availability true, and no other lookup changes |
| CatalogChanges.Patch | src/main/java/com/example/product_service/services/ProductServiceImpl.java:135-158 | the field updates never change the id |
| CatalogChanges.PatchIdempotent | src/main/java/com/example/product_service/services/ProductServiceImpl.java:135-158 | applying the same update a second time changes nothing more |
| CatalogChanges.UpdateOutcome | src/main/java/com/example/product_service/services/ProductServiceImpl.java:135-158 | after an update, price and stock are the requested ones, availability is true exactly when "true" was sent, a blank name or description keeps the old one, and the id is unchanged |
| CatalogChanges.UpdateChecksIdFirst | src/main/java/com/example/product_service/services/ProductServiceImpl.java:129-132 | an unknown id is reported as NotFound whatever the request holds |
| CatalogChanges.PriceOnlyUpdateFails | src/main/java/com/example/product_service/services/ProductServiceImpl.java:167-170 | an update with only a price fails: a null name is dereferenced, or blank texts leave the null stock to be rejected |
| CatalogChanges.UpdateNullDescriptionFails | src/main/java/com/example/product_service/services/ProductServiceImpl.java:139 | a request that passes validation with a null description fails when the description is dereferenced |
| CatalogChanges.UpdateNeverSetsZeroStock | src/main/java/com/example/product_service/services/ProductServiceImpl.java:170 | an update cannot set the stock to zero, although a reduction can |
| ProductServices.ProductService.constructor | src/main/java/com/example/product_service/models/ProductEntity.java:11-13 | an empty catalog whose identity column starts at 1 |
| ProductServices.ProductService.FindById | src/main/java/com/example/product_service/services/ProductServiceImpl.java:77-78 | a new entity holding the stored row exactly when the id is stored |
| ProductServices.ProductService.SaveProduct | src/main/java/com/example/product_service/services/ProductServiceImpl.java:121-124 | one write: a new entity gets the next id, a stored one overwrites its row, and a detached unknown one is copied under a new id; ids stay unique and keyed |
| ProductServices.ProductService.ReduceStock | src/main/java/com/example/product_service/services/ProductServiceImpl.java:75-86 | the catalog becomes ReduceStockResult's, with one write; on NotFound or insufficient stock nothing is written |
| ProductServices.ProductService.RestockProduct | src/main/java/com/example/product_service/services/ProductServiceImpl.java:89-96 | the catalog becomes RestockResult's, with one write; on NotFound nothing is written |
| ProductServices.ProductService.CreateNewProduct | src/main/java/com/example/product_service/services/ProductServiceImpl.java:113-118 | reports the creation pipeline's verdict; on success it inserts the available product under an id no row had, with one write; on failure nothing is written |
| ProductServices.ProductService.UpdateProductById | src/main/java/com/example/product_service/services/ProductServiceImpl.java:127-163 | the stored row and the returned admin view become UpdateResult's record, with one write; on failure nothing is written |
| ProductServices.ApplyUpdate | src/main/java/com/example/product_service/services/ProductServiceImpl.java:135-158 | the entity's fields become the patched record, or the null description is reported |
| JavaText.Split | src/main/java/com/example/product_service/rabbitmq/RabbitMQConsumer.java:20 | a text without a comma is a single field |
| JavaText.JoinFields | src/main/java/com/example/product_service/rabbitmq/RabbitMQConsumer.java:20 | cutting at commas loses nothing: joining the fields gives the text back |
| JavaText.SplitOfPair | src/main/java/com/example/product_service/rabbitmq/RabbitMQConsumer.java:20 | a text `a,b...` with a non-empty `b` splits into fields starting with `a` and `b` |
| JavaText.ParseLong | src/main/java/com/example/product_service/rabbitmq/RabbitMQConsumer.java:21 | a number exactly when the text is a signed decimal in the 64-bit range |
| JavaText.ParseInt | src/main/java/com/example/product_service/rabbitmq/RabbitMQConsumer.java:22 | a number exactly when the text is a signed decimal in the 32-bit range |
| JavaText.ParseShowInt | src/main/java/com/example/product_service/rabbitmq/RabbitMQConsumer.java:21-22 | parsing a rendered number gives it back |
| StockRollback.ParseRollbackMessage | src/main/java/com/example/product_service/rabbitmq/RabbitMQConsumer.java:20-22 | succeeds exactly when the message has at least two fields, field 0 parses as a `long` and field 1 as an `int`, and then the request holds those two values |
| StockRollback.ReadsWhatWasWritten | src/main/java/com/example/product_service/rabbitmq/RabbitMQConsumer.java:20-22 | a message `id,quantity`, with or without further fields, is read as that id and that quantity, negative quantities included |
| StockRollback.SingleFieldRejected | src/main/java/com/example/product_service/rabbitmq/RabbitMQConsumer.java:20-22 | a numeric message without a comma fails on the missing second field |
| StockRollback.EmptyQuantityRejected | src/main/java/com/example/product_service/rabbitmq/RabbitMQConsumer.java:20-22 | `id,` fails on the missing second field, because split drops the trailing empty field |
| StockRollback.OnlyCommaRejected | src/main/java/com/example/product_service/rabbitmq/RabbitMQConsumer.java:20-21 | `,` splits into no fields and fails on field 0 |
| StockRollback.NonNumericIdRejected | src/main/java/com/example/product_service/rabbitmq/RabbitMQConsumer.java:21 | `abc,<quantity>` fails on the id before the quantity is read |
| StockRollback.RollbackUndoesReduction | src/main/java/com/example/product_service/rabbitmq/RabbitMQConsumer.java:20-27 | the rollback message for a successful reduction restores the catalog as it was before the reduction |
| StockRollback.RedeliveryRestocksTwice | src/main/java/com/example/product_service/rabbitmq/RabbitMQConsumer.java:26-27 | nothing marks a message as handled: the same message delivered twice restocks twice |
| StockRollback.RollbackConsumer.RollbackStock | src/main/java/com/example/product_service/rabbitmq/RabbitMQConsumer.java:19-32 | a message that fails to parse escapes, with no call and no write; otherwise restock is called once with the parsed id and quantity, and its failure is caught and the message consumed |
| StockRollback.WidgetScenario | src/main/java/com/example/product_service/services/ProductServiceImpl.java:75-118 | create with stock 5, reduce by 3 (stock 2), a refused second reduction (stock stays 2), then the rollback message restores stock 5 |

## Left out

- The HTTP controller, its role check and status mapping, the exception handler class, the queue configuration, the application's seed data and the service interface are not part of this model; `getNameById` and `getPriceById` are commented out in the service and are not modelled.
- The repository declares no `findByIdIn` of its own; the model gives it the meaning of a derived `findByIdIn` query: each stored product whose id is in the list, once. Rows come back in ascending id order, where the database leaves the order open.
- Floating-point arithmetic: prices are only compared with 0, tested for NaN and copied, so `Price` keeps just those distinctions.
- Null entity fields and the no-argument constructor on their own are not modelled: every stored record has a name, description and stock, as every path that writes one ensures; a null `quantity` passed to `reduceStock`/`restockProduct` by a caller is not modelled either.
- ProductServices.ProductService.SaveProduct: a detached entity whose id is not stored is inserted as a new row under a generated id, which is what a merge does for an unknown id under identity generation; provider-specific exceptions for that case are not modelled.
- The error kinds `AllBlanks(MissingInfo)`, `AllBlanks(NothingToModify)` and `AllBlanks(BadAvailability)` tell apart failures that Java reports with one exception type. `validateAllBlanks` and `validateAvailabilty` even share the same message, so a caller cannot tell those two apart.
- Long ids are unbounded integers in the catalog; the identity column never overflows.
- JavaText.ParseLong, JavaText.ParseInt: only ASCII digits are accepted; Java also accepts digits of other Unicode scripts.
- Logging, concurrency (two requests racing on the same product), transactions, and the transport's redelivery and acknowledgement policy: each operation is one atomic step, and the listener's outcome is reported as a `Delivery` value.
