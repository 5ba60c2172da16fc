/** The order/stock reconciliation of the orders controller, stated as functions from one
    database state to the next. Each mutating endpoint is one atomic step; the bulk endpoint
    either commits the state its loop reaches or leaves the state as it was. */
module Ledger {
  import opened Models

  /** The state the controller reads and writes: the product table keyed by product id, the
      order table in the order its rows were inserted, and the identity counter that issues
      the next order key. */
  datatype Db = Db(products: map<ProductId, Product>, orders: seq<Order>, nextOrderId: OrderId)

  /** Why a call was refused, in place of the HTTP status code and message text. */
  datatype Error = ProductNotFound | OrderNotFound | InsufficientStock | EmptyInput

  /** What a mutating endpoint answers. */
  datatype Response = Created(orderId: OrderId) | Done | Failed(error: Error)

  datatype Result<T> = Ok(value: T) | Err(error: Error)

  /** Integrity the database keeps: order keys come from the identity counter, so they rise
      in insertion order and stay below the counter; every order references an existing
      product (the foreign key of the order table). */
  ghost predicate Valid(db: Db) {
    && (forall i, j :: 0 <= i < j < |db.orders| ==> db.orders[i].id < db.orders[j].id)
    && (forall i :: 0 <= i < |db.orders| ==> db.orders[i].id < db.nextOrderId)
    && (forall i :: 0 <= i < |db.orders| ==> db.orders[i].productId in db.products)
  }

  /** The part of order `o`'s quantity that it holds of product `pid`. */
  function Share(o: Order, pid: ProductId): int {
    if o.productId == pid then o.quantity else 0
  }

  /** The total quantity that the orders in `orders` hold of product `pid`. */
  function Committed(orders: seq<Order>, pid: ProductId): int {
    if orders == [] then 0
    else Committed(orders[..|orders| - 1], pid) + Share(orders[|orders| - 1], pid)
  }

  /** What product `pid` was provisioned with: the stock on hand plus what live orders hold. */
  ghost function Provisioned(db: Db, pid: ProductId): int
    requires pid in db.products
  {
    db.products[pid].stock + Committed(db.orders, pid)
  }

  /** The catalog keeps its products, and each product's provision is unchanged. */
  ghost predicate Conserved(before: Db, after: Db) {
    && after.products.Keys == before.products.Keys
    && forall pid :: pid in before.products ==> Provisioned(after, pid) == Provisioned(before, pid)
  }

  /** `after`'s product table is `before`'s with the stock of product `pid` lowered by
      `amount` (raised when `amount` is negative); every other row and column is as it was. */
  ghost predicate Debited(before: Db, after: Db, pid: ProductId, amount: int)
    requires pid in before.products
  {
    && after.products.Keys == before.products.Keys
    && after.products[pid] == before.products[pid].(stock := before.products[pid].stock - amount)
    && forall p :: p in before.products && p != pid ==> after.products[p] == before.products[p]
  }

  /** The position of the first order whose key is `id`, if there is one. */
  function IndexOfOrder(orders: seq<Order>, id: OrderId): (r: Option<nat>)
    ensures r.Some? ==> r.value < |orders| && orders[r.value].id == id
    ensures r.Some? ==> forall k :: 0 <= k < r.value ==> orders[k].id != id
    ensures r.None? <==> forall k :: 0 <= k < |orders| ==> orders[k].id != id
  {
    if orders == [] then None
    else if orders[0].id == id then Some(0)
    else
      match IndexOfOrder(orders[1..], id)
      case None => None
      case Some(j) => Some(j + 1)
  }

  /** Creating an order: refused when the product is unknown or its stock is below the
      quantity; otherwise the order is appended under the next key and the quantity is
      taken from the product's stock. The quantity itself is not checked. */
  function CreateOrder(db: Db, productId: ProductId, customerName: string, quantity: int, now: Timestamp): (r: (Response, Db))
    ensures r.0 == Failed(ProductNotFound) <==> productId !in db.products
    ensures r.0 == Failed(InsufficientStock) <==> productId in db.products && db.products[productId].stock < quantity
    ensures r.0 == Created(db.nextOrderId) || r.0.Failed?
    ensures r.0.Created? <==> productId in db.products && db.products[productId].stock >= quantity
    ensures r.0.Failed? ==> r.1 == db
    ensures r.0.Created? ==>
      && productId in db.products
      && r.1.orders == db.orders + [Order(db.nextOrderId, productId, customerName, quantity, now)]
      && r.1.nextOrderId == db.nextOrderId + 1
      && Debited(db, r.1, productId, quantity)
      && r.1.products[productId].stock >= 0
  {
    if productId !in db.products then (Failed(ProductNotFound), db)
    else
      var product := db.products[productId];
      if product.stock < quantity then (Failed(InsufficientStock), db)
      else
        var order := Order(db.nextOrderId, productId, customerName, quantity, now);
        var products := db.products[productId := product.(stock := product.stock - quantity)];
        (Created(order.id), Db(products, db.orders + [order], db.nextOrderId + 1))
  }

  /** Changing an order's quantity: refused when the order is unknown, or when the product's
      stock is below the difference between the new and the old quantity; otherwise the
      order takes the new quantity and the difference is taken from the stock. */
  function UpdateOrderQuantity(db: Db, orderId: OrderId, newQuantity: int): (r: (Response, Db))
    requires Valid(db)
    ensures r.0 == Failed(OrderNotFound) <==> IndexOfOrder(db.orders, orderId).None?
    ensures r.0 == Done || r.0 == Failed(OrderNotFound) || r.0 == Failed(InsufficientStock)
    ensures r.0.Failed? ==> r.1 == db
    ensures IndexOfOrder(db.orders, orderId).Some? ==>
      var i := IndexOfOrder(db.orders, orderId).value;
      var order := db.orders[i];
      var difference := newQuantity - order.quantity;
      && order.productId in db.products
      && (r.0 == Failed(InsufficientStock) <==> db.products[order.productId].stock < difference)
      && (r.0 == Done ==>
            && r.1.orders == db.orders[i := order.(quantity := newQuantity)]
            && r.1.nextOrderId == db.nextOrderId
            && Debited(db, r.1, order.productId, difference)
            && r.1.products[order.productId].stock >= 0)
  {
    match IndexOfOrder(db.orders, orderId)
    case None => (Failed(OrderNotFound), db)
    case Some(i) =>
      var order := db.orders[i];
      var product := db.products[order.productId];
      var difference := newQuantity - order.quantity;
      if product.stock < difference then (Failed(InsufficientStock), db)
      else
        var orders := db.orders[i := order.(quantity := newQuantity)];
        var products := db.products[order.productId := product.(stock := product.stock - difference)];
        (Done, db.(products := products, orders := orders))
  }

  /** Deleting an order: refused when the order is unknown; otherwise its quantity is given
      back to its product's stock and the order row is removed. */
  function DeleteOrder(db: Db, orderId: OrderId): (r: (Response, Db))
    requires Valid(db)
    ensures r.0 == Failed(OrderNotFound) <==> IndexOfOrder(db.orders, orderId).None?
    ensures r.0 == Done || r.0 == Failed(OrderNotFound)
    ensures r.0.Failed? ==> r.1 == db
    ensures IndexOfOrder(db.orders, orderId).Some? ==>
      var i := IndexOfOrder(db.orders, orderId).value;
      var order := db.orders[i];
      && order.productId in db.products
      && r.1.orders == db.orders[..i] + db.orders[i + 1..]
      && r.1.nextOrderId == db.nextOrderId
      && Debited(db, r.1, order.productId, -order.quantity)
  {
    match IndexOfOrder(db.orders, orderId)
    case None => (Failed(OrderNotFound), db)
    case Some(i) =>
      var order := db.orders[i];
      var product := db.products[order.productId];
      var products := db.products[order.productId := product.(stock := product.stock + order.quantity)];
      (Done, db.(products := products, orders := db.orders[..i] + db.orders[i + 1..]))
  }

  /** The loop of the bulk endpoint: the create step applied to each request in turn, each
      against the state the earlier requests left, stopping at the first refusal. */
  function Run(db: Db, requests: seq<OrderRequest>, now: Timestamp): (r: Result<Db>)
    ensures r.Err? ==> r.error == ProductNotFound || r.error == InsufficientStock
    decreases |requests|
  {
    if requests == [] then Ok(db)
    else
      match Run(db, requests[..|requests| - 1], now)
      case Err(e) => Err(e)
      case Ok(working) =>
        var req := requests[|requests| - 1];
        var step := CreateOrder(working, req.productId, req.customerName, req.quantity, now);
        if step.0.Failed? then Err(step.0.error) else Ok(step.1)
  }

  /** The bulk endpoint: an empty batch is refused; otherwise the batch runs as one
      transaction, committed when every request was accepted and rolled back otherwise. */
  function CreateBulkOrders(db: Db, requests: seq<OrderRequest>, now: Timestamp): (r: (Response, Db))
    ensures r.0 == Failed(EmptyInput) <==> requests == []
    ensures r.0 == Done || r.0.Failed?
    ensures r.0.Failed? ==> r.1 == db
  {
    if requests == [] then (Failed(EmptyInput), db)
    else
      match Run(db, requests, now)
      case Err(e) => (Failed(e), db)
      case Ok(after) => (Done, after)
  }
}
