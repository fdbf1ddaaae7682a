# Order, inventory and catalogue cores of a microservices shop

This project models, in Dafny, the decision and mapping logic of three small
Spring Boot services:

- **Order service.** `placeOrder` turns the request's line-item DTOs into
  line items and collects their SKU codes in order. It then asks the
  inventory service about those codes. If every entry of the answer is in
  stock, it saves the order, publishes an `OrderPlacedEvent` carrying the
  order number, and returns `"Order Placed"`. Otherwise it throws
  `"Product is not in stock, please try again later"` and changes nothing.
- **Inventory service.** `isInStock` looks up the stored records whose SKU
  code was requested. It answers one `{skuCode, isInStock}` per record, with
  `isInStock` meaning `quantity > 0`.
- **Product service.** `createProduct` stores a product copied from the
  request. `getAllProducts` lists the stored products as responses. The
  start-up `DataLoader` seeds one "iPhone 13" product (description
  "iPhone 13", price 1000) when the catalogue is empty.

Everything is functional and uses immutable datatypes.

- Repositories are sequences in storage order.
- The order repository and the event log form a `State`. `PlaceOrder` threads
  that state and returns a `Placement`. A `Placement` holds the outcome
  (returned value or thrown message), the SKU list sent to the inventory
  service, the effects performed in order (`Saved`, then `Published`), and
  the resulting state.
- These values are parameters:
  - the random order number (a UUID in the service);
  - the inventory service's HTTP answer;
  - the identifier the database assigns when it saves a product.
- `BigDecimal` prices are never computed on, only copied. They are modelled
  as an unscaled integer together with a scale (`Decimals.Decimal`).

Files: `decimals.dfy`, `inventory_service.dfy`, `order_service.dfy`,
`product_service.dfy`, `data_loader.dfy`.

### The stock rule does not fail closed

The order service does not check that every requested SKU is known to the
inventory. It tests `allMatch(isInStock)` over whatever array the inventory
returned (OrderService.java lines 90-91) and never compares that array with
the requested SKUs.

- An empty answer therefore commits.
- A SKU the inventory has no record of never blocks an order.

`OrderService.FailClosedAvailable` states the fail-closed rule, under which
every requested SKU must be present and in stock, only for contrast.
`OrderService.AllMatchIsNotFailClosed` proves that the two rules differ on
every non-empty order.

## Model

| member | source | states |
|---|---|---|
| OrderService.MapToDto | order-service/src/main/java/com/programmingtechie/orderservice/service/OrderService.java:113-119 | the line item carries the DTO's `skuCode`, `price` and `quantity` unchanged |
| OrderService.MapToDtoIgnoresId | order-service/src/main/java/com/programmingtechie/orderservice/service/OrderService.java:113-119 | two DTOs differing only in their id map to the same line item: the id is never copied |
| OrderService.MapLineItems | order-service/src/main/java/com/programmingtechie/orderservice/service/OrderService.java:61-64 | one line item per DTO, same number and order, each copying `skuCode`, `price` and `quantity` unchanged (the DTO id is not carried) |
| OrderService.SkuCodes | order-service/src/main/java/com/programmingtechie/orderservice/service/OrderService.java:70-72 | the SKU list has one entry per line item, the i-th being the i-th item's code, so duplicates are kept and no items give an empty list |
| OrderService.Query | order-service/src/main/java/com/programmingtechie/orderservice/service/OrderService.java:61-72 | the SKU list sent to the inventory is exactly the request DTOs' SKU codes, in request order |
| OrderService.AllMatchInStock | order-service/src/main/java/com/programmingtechie/orderservice/service/OrderService.java:90-91 | the left-to-right `allMatch` is true exactly when every element of the answer is in stock (vacuously true when empty) |
| OrderService.PlaceOrder | order-service/src/main/java/com/programmingtechie/orderservice/service/OrderService.java:55-104 | commits if and only if every answer element is in stock; on commit there is exactly one save of the order with the given order number and mapped line items, then exactly one event with that same number, and the result is "Order Placed"; on rejection the message is "Product is not in stock, please try again later" and the repository and event log are unchanged |
| OrderService.EmptyAnswerCommits | order-service/src/main/java/com/programmingtechie/orderservice/service/OrderService.java:90-98 | an empty inventory answer commits any request, adding one order and one event with the order number |
| OrderService.DecisionDependsOnlyOnFlags | order-service/src/main/java/com/programmingtechie/orderservice/service/OrderService.java:90-93 | two placements whose answers have the same stock flags decide alike, whatever the line items, prices, quantities, order number or prior state |
| OrderService.AllMatchIsNotFailClosed | order-service/src/main/java/com/programmingtechie/orderservice/service/OrderService.java:90-91 | for every non-empty request an empty answer fails a fail-closed check yet `placeOrder` commits |
| OrderService.PlaceAgainstInventory | order-service/src/main/java/com/programmingtechie/orderservice/service/OrderService.java:82-93 | against the inventory service's own answer, an order commits exactly when every stored record whose code was requested has a positive quantity; codes with no record do not block it |
| InventoryService.FindBySkuCodeIn | inventory-service/src/main/java/com/programmingtechie/inventoryservice/service/InventoryService.java:41 | the lookup returns exactly the stored records whose code was requested, never more records than stored |
| InventoryService.FindBySkuCodeInConcat | inventory-service/src/main/java/com/programmingtechie/inventoryservice/service/InventoryService.java:41 | the lookup keeps storage order: it distributes over concatenation of the store |
| InventoryService.ToResponses | inventory-service/src/main/java/com/programmingtechie/inventoryservice/service/InventoryService.java:42-48 | one response per record in the same order, copying the SKU code, with `isInStock` true if and only if `quantity > 0` |
| InventoryService.IsInStock | inventory-service/src/main/java/com/programmingtechie/inventoryservice/service/InventoryService.java:36-49 | one response per record found, in order, with the record's code and the `quantity > 0` flag; every returned code was requested; an empty store or an empty SKU list gives an empty answer |
| InventoryService.IsInStockConcat | inventory-service/src/main/java/com/programmingtechie/inventoryservice/service/InventoryService.java:41-48 | flags are computed record by record: the answer for two store parts is the concatenation of their answers |
| InventoryService.IsInStockExact | inventory-service/src/main/java/com/programmingtechie/inventoryservice/service/InventoryService.java:41-48 | every stored record with a requested code appears in the answer with its own flag, and a code no record carries gets no entry at all (not a false one) |
| ProductService.CreateProduct | product-service/src/main/java/com/programmingtechie/productservice/service/ProductService.java:34-43 | the store grows by exactly one, earlier products are unchanged, and the new product carries the request's name, description and price (any price, zero included) with the assigned id |
| ProductService.MapToProductResponse | product-service/src/main/java/com/programmingtechie/productservice/service/ProductService.java:69-75 | the response carries the product's id, name, description and price unchanged |
| ProductService.MapToProductResponseCopiesFields | product-service/src/main/java/com/programmingtechie/productservice/service/ProductService.java:69-75 | the response copies id, name, description and price unchanged, so two products map to the same response only if they are equal |
| ProductService.ZeroPriceIsStored | product-service/src/test/java/com/programmingtechie/productservice/ProductServiceApplicationTests.java:124-134 | a request priced at zero is accepted and stored with price zero, growing the store by one |
| ProductService.GetAllProducts | product-service/src/main/java/com/programmingtechie/productservice/service/ProductService.java:54-59 | one response per stored product, in storage order, with each product's four fields; an empty store lists nothing |
| ProductService.GetAllProductsConcat | product-service/src/main/java/com/programmingtechie/productservice/service/ProductService.java:59 | listing is computed product by product: it distributes over concatenation of the store |
| ProductService.CreateThenList | product-service/src/main/java/com/programmingtechie/productservice/service/ProductService.java:34-59 | after a create, the listing is the earlier listing followed by exactly the new product with the request's fields |
| DataLoader.Run | product-service/src/main/java/com/programmingtechie/productservice/util/DataLoader.java:21-30 | an empty repository afterwards holds exactly the product "iPhone 13" / "iPhone 13" / 1000 (scale 0); a non-empty one is left unchanged |
| DataLoader.RunIdempotent | product-service/src/main/java/com/programmingtechie/productservice/util/DataLoader.java:22-29 | running twice leaves the same repository as running once, and afterwards the repository is never empty |

## Left out

- Circuit breaker, retry and time limiter on the order controller: the resilience4j library applies them from annotations, using configuration that is not part of this model. The library code and its settings (window, thresholds, retry count, timeout) are left out, so no breaker state is modelled.
- Asynchronous execution: the controller runs `placeOrder` through `CompletableFuture.supplyAsync`. The model treats a placement as one sequential call.
- The controller fallback: it returns a constant apology string for any runtime exception, including the stock rejection. It is not modelled.
- The HTTP call to the inventory service and the Micrometer observation around it: the inventory answer is a parameter of `PlaceOrder`. A null body, which would make the Java code fail in `Arrays.stream`, is not modelled.
- Null values are not modelled: every field and list in the model is present.
- UUID generation and database identifier assignment: both are parameters.
- Transactions and the Mongo/JPA engines: repositories are sequences in storage order. A repository's own ordering and uniqueness rules are not modelled.
- The REST controllers, the application main classes, and DTO getters, setters and builders: they only route requests or become plain datatypes.
- Logging calls: they have no effect on the modelled state.
- `BigDecimal` arithmetic and `equals` versus `compareTo`: prices are only copied, so a price is a plain (unscaled, scale) pair.
- The order and line-item database identifiers: `placeOrder` creates the order with `new Order()` and `mapToDto` creates each line item without an id, so both are left unset for the database to assign. They are not part of the model.
- SKU matching in the inventory lookup is modelled as exact string equality. The real query leaves matching to the database's string comparison, which a case- or space-insensitive collation would change.
