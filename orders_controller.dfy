/** The orders controller over its database context: it changes the product and order
    tables in place, and takes order keys from an identity counter. Each method is proved
    to do what the matching function of Ledger describes, and to conserve every product's
    provision. */
module Controller {
  import opened Models
  import Ledger
  import LedgerProperties

  class OrdersController {
    var products: map<ProductId, Product>
    var orders: seq<Order>
    var nextOrderId: OrderId

    /** The tables as a value. */
    function Snapshot(): Ledger.Db
      reads this
    {
      Ledger.Db(products, orders, nextOrderId)
    }

    ghost predicate Valid()
      reads this
    {
      Ledger.Valid(Snapshot())
    }

    /** A context over a seeded catalog with no orders; order keys start at 1. */
    constructor (catalog: map<ProductId, Product>)
      ensures Valid()
      ensures products == catalog && orders == [] && nextOrderId == 1
    {
      products := catalog;
      orders := [];
      nextOrderId := 1;
    }

    method CreateOrder(productId: ProductId, customerName: string, quantity: int, now: Timestamp)
      returns (response: Ledger.Response)
      requires Valid()
      modifies this
      ensures Valid()
      ensures (response, Snapshot()) == Ledger.CreateOrder(old(Snapshot()), productId, customerName, quantity, now)
      ensures Ledger.Conserved(old(Snapshot()), Snapshot())
    {
      ghost var db := Snapshot();
      if productId !in products {
        return Ledger.Failed(Ledger.ProductNotFound);
      }
      var product := products[productId];
      if product.stock < quantity {
        return Ledger.Failed(Ledger.InsufficientStock);
      }
      var order := Order(nextOrderId, productId, customerName, quantity, now);
      orders := orders + [order];
      products := products[productId := product.(stock := product.stock - quantity)];
      nextOrderId := nextOrderId + 1;
      response := Ledger.Created(order.id);
      LedgerProperties.CreateOrderConserves(db, productId, customerName, quantity, now);
    }

    method UpdateOrderQuantity(orderId: OrderId, newQuantity: int) returns (response: Ledger.Response)
      requires Valid()
      modifies this
      ensures Valid()
      ensures (response, Snapshot()) == Ledger.UpdateOrderQuantity(old(Snapshot()), orderId, newQuantity)
      ensures Ledger.Conserved(old(Snapshot()), Snapshot())
    {
      ghost var db := Snapshot();
      var found := Ledger.IndexOfOrder(orders, orderId);
      if found.None? {
        return Ledger.Failed(Ledger.OrderNotFound);
      }
      var order := orders[found.value];
      var product := products[order.productId];
      var difference := newQuantity - order.quantity;
      if product.stock < difference {
        return Ledger.Failed(Ledger.InsufficientStock);
      }
      orders := orders[found.value := order.(quantity := newQuantity)];
      products := products[order.productId := product.(stock := product.stock - difference)];
      response := Ledger.Done;
      assert (response, Snapshot()) == Ledger.UpdateOrderQuantity(db, orderId, newQuantity);
      LedgerProperties.UpdateOrderQuantityConserves(db, orderId, newQuantity);
    }

    method DeleteOrder(orderId: OrderId) returns (response: Ledger.Response)
      requires Valid()
      modifies this
      ensures Valid()
      ensures (response, Snapshot()) == Ledger.DeleteOrder(old(Snapshot()), orderId)
      ensures Ledger.Conserved(old(Snapshot()), Snapshot())
    {
      ghost var db := Snapshot();
      var found := Ledger.IndexOfOrder(orders, orderId);
      if found.None? {
        return Ledger.Failed(Ledger.OrderNotFound);
      }
      var i := found.value;
      var order := orders[i];
      var product := products[order.productId];
      products := products[order.productId := product.(stock := product.stock + order.quantity)];
      orders := orders[..i] + orders[i + 1..];
      response := Ledger.Done;
      assert (response, Snapshot()) == Ledger.DeleteOrder(db, orderId);
      LedgerProperties.DeleteOrderConserves(db, orderId);
    }

    /** The bulk endpoint as one transaction: an empty batch is refused; otherwise the batch
        is placed, and a refusal part-way rolls the tables back to where the transaction
        began. */
    method CreateBulkOrders(requests: seq<OrderRequest>, now: Timestamp) returns (response: Ledger.Response)
      requires Valid()
      modifies this
      ensures Valid()
      ensures (response, Snapshot()) == Ledger.CreateBulkOrders(old(Snapshot()), requests, now)
      ensures response != Ledger.Done ==> Snapshot() == old(Snapshot())
      ensures Ledger.Conserved(old(Snapshot()), Snapshot())
    {
      ghost var db := Snapshot();
      if |requests| == 0 {
        LedgerProperties.BulkConserves(db, requests, now);
        return Ledger.Failed(Ledger.EmptyInput);
      }
      var before := Snapshot();
      var accepted, refusal := PlaceAll(requests, now);
      if refusal.Some? {
        products, orders, nextOrderId := before.products, before.orders, before.nextOrderId;
        LedgerProperties.RunFailureIsFinal(db, requests, accepted + 1, now);
        response := Ledger.Failed(refusal.value);
      } else {
        assert requests[..accepted] == requests;
        response := Ledger.Done;
      }
      LedgerProperties.BulkConserves(db, requests, now);
    }

    /** The loop of the bulk endpoint: each request is checked against the tables as the
        earlier requests left them and applied at once, up to the first refusal. `accepted`
        counts the requests applied; `refusal` is why the next one was refused, if one was. */
    method PlaceAll(requests: seq<OrderRequest>, now: Timestamp) returns (accepted: nat, refusal: Option<Ledger.Error>)
      modifies this
      ensures accepted <= |requests|
      ensures refusal.None? <==> accepted == |requests|
      ensures Ledger.Run(old(Snapshot()), requests[..accepted], now) == Ledger.Ok(Snapshot())
      ensures refusal.Some? ==> Ledger.Run(old(Snapshot()), requests[..accepted + 1], now) == Ledger.Err(refusal.value)
    {
      ghost var before := Snapshot();
      accepted := 0;
      while accepted < |requests|
        invariant 0 <= accepted <= |requests|
        invariant Ledger.Run(before, requests[..accepted], now) == Ledger.Ok(Snapshot())
      {
        var req := requests[accepted];
        ghost var working := Snapshot();
        LedgerProperties.RunStepRefused(before, requests, accepted, working, now);
        if req.productId !in products {
          return accepted, Some(Ledger.ProductNotFound);
        }
        var product := products[req.productId];
        if product.stock < req.quantity {
          return accepted, Some(Ledger.InsufficientStock);
        }
        orders := orders + [Order(nextOrderId, req.productId, req.customerName, req.quantity, now)];
        products := products[req.productId := product.(stock := product.stock - req.quantity)];
        nextOrderId := nextOrderId + 1;
        LedgerProperties.RunStepAccepted(before, requests, accepted, working, Snapshot(), now);
        accepted := accepted + 1;
      }
      refusal := None;
    }
  }

  /** One product with 10 in stock: an order for 4 leaves 6, and an order for 7 is then
      refused without touching the stock. */
  method CreateScenario(now: Timestamp)
  {
    var controller := new OrdersController(map[1 := Product("Widget", 5, 10)]);
    var r := controller.CreateOrder(1, "Ann", 4, now);
    assert r == Ledger.Created(1);
    assert controller.products == map[1 := Product("Widget", 5, 6)];
    r := controller.CreateOrder(1, "Bob", 7, now);
    assert r == Ledger.Failed(Ledger.InsufficientStock);
    assert controller.products == map[1 := Product("Widget", 5, 6)];
  }

  /** The same product after the order for 4: raising that order to 6 leaves 4 in stock,
      and deleting it brings the stock back to 10. */
  method UpdateDeleteScenario(now: Timestamp)
  {
    var controller := new OrdersController(map[1 := Product("Widget", 5, 10)]);
    var r := controller.CreateOrder(1, "Ann", 4, now);
    assert controller.orders == [Order(1, 1, "Ann", 4, now)];
    assert Ledger.IndexOfOrder(controller.orders, 1) == Some(0);
    r := controller.UpdateOrderQuantity(1, 6);
    assert r == Ledger.Done && controller.products[1].stock == 4;
    assert controller.orders == [Order(1, 1, "Ann", 6, now)];
    assert Ledger.IndexOfOrder(controller.orders, 1) == Some(0);
    r := controller.DeleteOrder(1);
    assert r == Ledger.Done && controller.products[1].stock == 10 && controller.orders == [];
  }

  /** A batch whose requests fit one at a time but not together: the third request sees the
      stock the first two left, is refused, and the whole batch is rolled back. */
  method BulkScenario(now: Timestamp)
  {
    var controller := new OrdersController(map[1 := Product("Widget", 5, 10)]);
    var start := controller.Snapshot();
    var batch := [OrderRequest(1, "Ann", 3), OrderRequest(1, "Bob", 3), OrderRequest(1, "Cy", 5)];
    assert batch[..0] == [];
    assert batch[..1] == [batch[0]] && batch[..1][..0] == [];
    assert batch[..2] == batch[..1] + [batch[1]] && batch[..2][..1] == batch[..1];
    assert LedgerProperties.Requested(batch[..1], 1) == 3;
    assert LedgerProperties.Requested(batch[..2], 1) == 6;
    assert LedgerProperties.Admissible(start, batch, 0);
    assert LedgerProperties.Admissible(start, batch, 1);
    assert !LedgerProperties.Admissible(start, batch, 2);
    LedgerProperties.RunFailsAtFirstInadmissible(start, batch, 2, now);
    var r := controller.CreateBulkOrders(batch, now);
    assert r == Ledger.Failed(Ledger.InsufficientStock);
    assert controller.products[1].stock == 10 && controller.orders == [];
  }
}
