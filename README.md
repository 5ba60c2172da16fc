# OrderTrack order/stock reconciliation in Dafny

OrderTrack keeps two tables: a product catalog, where each product has a name, an integer
unit price and an integer stock, and an order table, where each order has an identity key,
a product, a customer name, an integer quantity and a date. Its `OrdersController` has
four mutating endpoints and five reports:

- **Create.** Places an order after checking the product exists and has enough stock, then
  takes the quantity from stock.
- **Update.** Changes an order's quantity, checking stock against the difference.
- **Delete.** Gives an order's quantity back to stock and removes the order.
- **Bulk create.** Runs the create step for a list of requests inside one transaction. It
  is rolled back on the first refusal.
- **Reports.** The order listing, the per-product quantity/revenue summary, low-stock
  products, the top three customers, and products never ordered.

The project has five modules.

- `Models` (`models.dfy`): the row shapes of the two tables and of a bulk request.
- `Ledger` (`ledger.dfy`): each mutating endpoint as a function from one database state
  (`Db`: the product map, the order sequence in key order, and the identity counter) to a
  response and the next state. Its refusals are a `Response` datatype instead of HTTP
  status codes. It also defines the database's integrity (`Valid`) and each product's
  *provision* (`Provisioned`): the stock on hand plus what live orders hold of it.
- `LedgerProperties` (`ledger_properties.dfy`): what the endpoints promise.
  - Integrity and provision are conserved by every endpoint.
  - Stock never goes below zero while quantities are positive.
  - The bulk endpoint is all-or-nothing, and each of its stock checks sees what the
    earlier requests of the batch took.
- `Reports` (`reports.dfy`): the five reports as functions, with their contracts and
  lemmas relating them to the endpoints.
- `Controller` (`orders_controller.dfy`): the class `OrdersController`.
  - Its fields are the product table, the order table and the identity counter. Its
    methods change them in place, as the source does through its database context.
  - Each of the four endpoint methods is proved to leave the object in the state the
    matching `Ledger` function computes, to answer what that function answers, and to keep
    integrity and every product's provision; the constructor establishes integrity.
  - `CreateScenario`, `UpdateDeleteScenario` and `BulkScenario` are worked examples on a
    one-product catalog (a refused create, an update then a delete, and a batch refused at
    its third request and rolled back); they are not endpoints.
  - The bulk endpoint is split in two. `PlaceAll` is the `foreach` loop, and
    `CreateBulkOrders` is the transaction around it, which rolls back on a refusal.

The controller never checks that a quantity is positive, and the model follows the code.
`UncheckedQuantityDrivesStockNegative` exhibits what that allows: an order for a negative quantity, a second order
that takes the stock the first one added, and then deleting the first order leave a product
with stock below zero. Non-negative stock is therefore proved under the assumption of positive
quantities (`Safe`), and unconditionally only for create and update.

## Model

| member | source | states |
|---|---|---|
| Ledger.IndexOfOrder | OrderTrack.API/Controllers/OrdersController.cs:69 | the position of the first order with the key, or none exactly when no order has it |
| Ledger.CreateOrder | OrderTrack.API/Controllers/OrdersController.cs:27-60 | not-found exactly when the product is absent; insufficient-stock exactly when its stock is below the quantity; accepted exactly when the product exists and its stock covers the quantity; a refusal changes nothing; an accepted order is appended under the next key, only that product's stock drops by the quantity, and it stays non-negative |
| Ledger.UpdateOrderQuantity | OrderTrack.API/Controllers/OrdersController.cs:64-90 | not-found exactly when no order has the key; insufficient-stock exactly when stock is below new minus old quantity; no other refusal, so an existing order whose product's stock covers the difference is updated; a refusal changes nothing; on success only that order's quantity and only its product's stock (by the difference) change, and the stock stays non-negative |
| Ledger.DeleteOrder | OrderTrack.API/Controllers/OrdersController.cs:94-113 | not-found exactly when no order has the key, with nothing changed; otherwise exactly that order is removed and only its product's stock rises by its quantity |
| Ledger.Run | OrderTrack.API/Controllers/OrdersController.cs:249-276 | the bulk loop stops only with not-found or insufficient-stock |
| Ledger.CreateBulkOrders | OrderTrack.API/Controllers/OrdersController.cs:237-293 | empty-input exactly for an empty batch; any refusal leaves the state unchanged |
| LedgerProperties.CreateOrderConserves | OrderTrack.API/Controllers/OrdersController.cs:44-51 | a create keeps integrity, the catalog's keys and every product's stock-plus-ordered total |
| LedgerProperties.UpdateOrderQuantityConserves | OrderTrack.API/Controllers/OrdersController.cs:79-81 | an update keeps integrity, the catalog's keys and every product's stock-plus-ordered total |
| LedgerProperties.DeleteOrderConserves | OrderTrack.API/Controllers/OrdersController.cs:101-105 | a delete keeps integrity (keys still rising, references still valid), the catalog's keys and every product's stock-plus-ordered total |
| LedgerProperties.UpdateToSameQuantityKeepsState | OrderTrack.API/Controllers/OrdersController.cs:73-81 | setting an order to its current quantity leaves the whole state unchanged, and is accepted when the stock is non-negative |
| LedgerProperties.DeleteThenRecreateRestoresStock | OrderTrack.API/Controllers/OrdersController.cs:98-106 | when the order's product has non-negative stock, deleting the order and re-creating it with the same product and quantity is accepted and restores the product table exactly |
| LedgerProperties.CreateOrderKeepsSafe | OrderTrack.API/Controllers/OrdersController.cs:36-51 | a create never makes any stock negative; with a positive quantity it keeps integrity, non-negative stock and positive quantities |
| LedgerProperties.UpdateOrderQuantityKeepsSafe | OrderTrack.API/Controllers/OrdersController.cs:73-81 | an update never makes any stock negative; with a positive new quantity it keeps all three |
| LedgerProperties.DeleteOrderKeepsSafe | OrderTrack.API/Controllers/OrdersController.cs:98-105 | from a state with positive quantities and non-negative stock, a delete keeps all three |
| LedgerProperties.UncheckedQuantityDrivesStockNegative | OrderTrack.API/Controllers/OrdersController.cs:27-51 | since quantities are unchecked, orders for -5 then 5 on an empty product, then deleting the first, are all accepted and leave stock -5 |
| LedgerProperties.RunEffect | OrderTrack.API/Controllers/OrdersController.cs:249-276 | after an accepted batch, one order per request is appended under consecutive keys, and each product's stock is lowered by the sum of the quantities the batch asked of it |
| LedgerProperties.RunSucceedsIff | OrderTrack.API/Controllers/OrdersController.cs:252-262 | the loop accepts a batch exactly when every request's product exists and its stock, less what earlier requests took, covers the quantity |
| LedgerProperties.RunFailsAtFirstInadmissible | OrderTrack.API/Controllers/OrdersController.cs:252-262 | the first request that fails its checks decides the error: not-found for an absent product, otherwise insufficient-stock |
| LedgerProperties.RunStepRefused | OrderTrack.API/Controllers/OrdersController.cs:252-262 | one loop step against the working state refuses with not-found or insufficient-stock |
| LedgerProperties.RunStepAccepted | OrderTrack.API/Controllers/OrdersController.cs:264-275 | one accepted loop step appends the order under the next key and lowers that product's stock |
| LedgerProperties.RunFailureIsFinal | OrderTrack.API/Controllers/OrdersController.cs:287-291 | once a prefix of the batch is refused, the whole batch is refused with the same error |
| LedgerProperties.RunPreservesValid | OrderTrack.API/Controllers/OrdersController.cs:249-276 | the bulk loop keeps integrity |
| LedgerProperties.BulkIsAllOrNothing | OrderTrack.API/Controllers/OrdersController.cs:240-291 | success exactly when the batch is non-empty and every request passes its cumulative check; otherwise the state is unchanged; on success the orders grow by one per request and each stock drops by what the batch requested |
| LedgerProperties.BulkConserves | OrderTrack.API/Controllers/OrdersController.cs:237-293 | the bulk endpoint keeps integrity, the catalog's keys and every product's stock-plus-ordered total |
| LedgerProperties.RunKeepsSafe | OrderTrack.API/Controllers/OrdersController.cs:249-276 | a batch of positive quantities keeps integrity, non-negative stock and positive quantities |
| Reports.AllOrders | OrderTrack.API/Controllers/OrdersController.cs:117-139 | one row per order in table order, each with the order's key, customer, quantity and date and its product's name and unit price |
| Reports.ListingWith | OrderTrack.API/Controllers/OrdersController.cs:117-139 | appending an order over a catalog with the same names and prices appends exactly its row to the listing |
| Reports.ListingWithout | OrderTrack.API/Controllers/OrdersController.cs:117-139 | removing the order at a position removes exactly the row at that position |
| Reports.AllOrdersAfterCreate | OrderTrack.API/Controllers/OrdersController.cs:27-60 | an accepted create adds exactly the new order's row at the end of the listing |
| Reports.AllOrdersAfterDelete | OrderTrack.API/Controllers/OrdersController.cs:94-113 | an accepted delete removes exactly that order's row from the listing |
| Reports.Referenced | OrderTrack.API/Controllers/OrdersController.cs:219 | true exactly when some order references the product |
| Reports.RevenueIsPriceTimesQuantity | OrderTrack.API/Controllers/OrdersController.cs:153-154 | summing quantity times price over a product's orders gives price times the summed quantity |
| Reports.ProductSummary | OrderTrack.API/Controllers/OrdersController.cs:143-163 | exactly the products with at least one order, each with its name, the total quantity ordered, and revenue equal to unit price times that total |
| Reports.LowStockProducts | OrderTrack.API/Controllers/OrdersController.cs:167-186 | exactly the products whose stock is below the threshold, with their name, price and stock |
| Reports.CreateOnlyAddsItsProductToLowStock | OrderTrack.API/Controllers/OrdersController.cs:36-51 | an accepted create of a non-negative quantity removes no product from the low-stock report and can add only its own product |
| Reports.UnorderedProducts | OrderTrack.API/Controllers/OrdersController.cs:214-233 | exactly the products that no order references, with their name, price and stock |
| Reports.SummaryAndUnorderedPartitionCatalog | OrderTrack.API/Controllers/OrdersController.cs:143-233 | the summary and the not-ordered report are disjoint and together cover the catalog |
| Reports.UnorderedHoldsWholeProvision | OrderTrack.API/Controllers/OrdersController.cs:214-233 | a never-ordered product's whole provision is its stock |
| Reports.Customers | OrderTrack.API/Controllers/OrdersController.cs:195 | each customer name of the orders once, and only those |
| Reports.InsertByTotal | OrderTrack.API/Controllers/OrdersController.cs:196 | inserting into a list ordered by total, largest first, keeps it ordered and adds exactly that entry |
| Reports.SortByTotal | OrderTrack.API/Controllers/OrdersController.cs:196 | the ranking is ordered by total, largest first, and is a permutation of its input |
| Reports.RankingCoversCustomers | OrderTrack.API/Controllers/OrdersController.cs:195-196 | the ranking lists every customer exactly once, each with the total quantity of their orders |
| Reports.TopCustomers | OrderTrack.API/Controllers/OrdersController.cs:190-210 | at most three entries, largest total first |
| Reports.CutKeepsTheTop | OrderTrack.API/Controllers/OrdersController.cs:197 | taking the first three entries of a full ranking keeps min(3, customers) distinct customers, and no customer left out has a larger total than the third |
| Reports.TopCustomersAreTheTop | OrderTrack.API/Controllers/OrdersController.cs:190-210 | the report lists min(3, customers) distinct customers with their true totals, and nobody left out ordered more than the last one listed |
| Controller.OrdersController.constructor | OrderTrack.API/Controllers/OrdersController.cs:20-23 | a context over a catalog with no orders, counter at 1, satisfying integrity |
| Controller.OrdersController.CreateOrder | OrderTrack.API/Controllers/OrdersController.cs:27-60 | the fields become the state `Ledger.CreateOrder` computes and the answer is its answer; integrity and every product's provision are kept |
| Controller.OrdersController.UpdateOrderQuantity | OrderTrack.API/Controllers/OrdersController.cs:64-90 | the fields become the state `Ledger.UpdateOrderQuantity` computes and the answer is its answer; integrity and provisions are kept |
| Controller.OrdersController.DeleteOrder | OrderTrack.API/Controllers/OrdersController.cs:94-113 | the fields become the state `Ledger.DeleteOrder` computes and the answer is its answer; integrity and provisions are kept |
| Controller.OrdersController.PlaceAll | OrderTrack.API/Controllers/OrdersController.cs:249-276 | the loop applies the accepted prefix of the batch in place, exactly as `Ledger.Run` does on that prefix, and reports the first refusal with the error `Ledger.Run` gives one request further |
| Controller.OrdersController.CreateBulkOrders | OrderTrack.API/Controllers/OrdersController.cs:237-293 | the fields become the state `Ledger.CreateBulkOrders` computes, unchanged unless the batch is accepted; integrity and provisions are kept |

## Left out

- AuthController (BCrypt, JWT, configuration), the migrations, the Entity Framework context and `User.cs` are not part of this model: they are library calls or plumbing, not order logic.
- Asynchrony, concurrent requests and the database transaction machinery: each endpoint call is one atomic step, and the bulk transaction is "commit the reached state or restore the saved one".
- HTTP status codes, message texts and the catch-all internal-error responses: refusals are the `Error` values `ProductNotFound`, `OrderNotFound`, `InsufficientStock` and `EmptyInput`. The source answers both bulk refusals with the same bad-request status; the model keeps which check failed.
- `DateTime.UtcNow`: the instant is a parameter. The bulk endpoint takes one instant for the whole batch, whereas the source reads the clock once per request.
- 32-bit `int` arithmetic: stock, quantities, prices, revenue and keys are unbounded integers, so overflow of stock, of `Quantity * UnitPrice` or of the sums is not modelled.
- Reports.TopCustomers: ties between equal totals are broken by first appearance of the customer. The source leaves that order to the database, so only the ordering by total and the cut after three are promised.
- Reports.AllOrders, Reports.ProductSummary, Reports.LowStockProducts, Reports.UnorderedProducts: the source's queries have no `ORDER BY`. The listing uses table (key) order, and the other reports are maps keyed by product, which carry no order.
- The catalog is given to the constructor: no endpoint creates, edits or deletes products, and the cascade delete of orders with their product is not reachable.
- A null or missing request body for the bulk endpoint is the same as an empty batch.
- Reports.Customers: customer names are compared as exact character sequences. The database groups them under its column collation (on SQL Server by default case-insensitive and blind to trailing spaces), which is not modelled, so names such as "Ann" and "ann" count as two customers here and as one in the database.
- Ledger.CreateOrder: accepts any customer name. In the source an empty name binds to null and a name over 255 characters does not fit the column, so saving fails with an internal error and nothing is stored; the model creates the order.
- Ledger.CreateBulkOrders: accepts any customer name. In the source the request list is validated against the `[Required]` and `[MaxLength(255)]` attributes of the order's customer name before the action runs, so a batch with a missing, blank or over-long name is refused with nothing changed; the model runs such a batch, and LedgerProperties.BulkIsAllOrNothing's condition for success does not include the name checks.
- Order keys: the model issues them from a counter without gaps, so an accepted create takes `nextOrderId` and a batch takes consecutive keys. The source's keys come from an `IDENTITY(1,1)` column, which promises only fresh, rising keys; values lost to a failed insert or a server restart are skipped there.
