/** What the reconciliation promises: the database integrity is kept, every product's
    provision (stock on hand plus what live orders hold) is conserved, stock stays
    non-negative while quantities are positive, and the bulk endpoint is all-or-nothing with
    cumulative stock checks. */
module LedgerProperties {
  import opened Models
  import opened Ledger

  // ----- Sums over the order table -----

  lemma {:induction false} CommittedConcat(a: seq<Order>, b: seq<Order>, pid: ProductId)
    ensures Committed(a + b, pid) == Committed(a, pid) + Committed(b, pid)
    decreases |b|
  {
    if b == [] {
      assert a + b == a;
    } else {
      CommittedConcat(a, b[..|b| - 1], pid);
      assert (a + b)[..|a + b| - 1] == a + b[..|b| - 1];
    }
  }

  lemma CommittedSplit(s: seq<Order>, i: nat, pid: ProductId)
    requires i < |s|
    ensures Committed(s, pid) == Committed(s[..i], pid) + Share(s[i], pid) + Committed(s[i + 1..], pid)
  {
    assert s == s[..i] + [s[i]] + s[i + 1..];
    CommittedConcat(s[..i] + [s[i]], s[i + 1..], pid);
    CommittedConcat(s[..i], [s[i]], pid);
    assert [s[i]][..0] == [];
  }

  /** Replacing one order changes what the table holds of `pid` by the two orders' shares. */
  lemma CommittedReplace(s: seq<Order>, i: nat, o: Order, pid: ProductId)
    requires i < |s|
    ensures Committed(s[i := o], pid) == Committed(s, pid) - Share(s[i], pid) + Share(o, pid)
  {
    CommittedSplit(s, i, pid);
    CommittedSplit(s[i := o], i, pid);
    assert s[i := o][..i] == s[..i];
    assert s[i := o][i + 1..] == s[i + 1..];
  }

  /** Removing one order lowers what the table holds of `pid` by that order's share. */
  lemma CommittedRemove(s: seq<Order>, i: nat, pid: ProductId)
    requires i < |s|
    ensures Committed(s[..i] + s[i + 1..], pid) == Committed(s, pid) - Share(s[i], pid)
  {
    CommittedSplit(s, i, pid);
    CommittedConcat(s[..i], s[i + 1..], pid);
  }

  lemma CommittedAppend(s: seq<Order>, o: Order, pid: ProductId)
    ensures Committed(s + [o], pid) == Committed(s, pid) + Share(o, pid)
  {
    assert (s + [o])[..|s|] == s;
  }

  // ----- Integrity and conservation, one endpoint at a time -----

  /** A create keeps the database's integrity and every product's provision. */
  lemma CreateOrderConserves(db: Db, productId: ProductId, customerName: string, quantity: int, now: Timestamp)
    requires Valid(db)
    ensures Valid(CreateOrder(db, productId, customerName, quantity, now).1)
    ensures Conserved(db, CreateOrder(db, productId, customerName, quantity, now).1)
  {
    var after := CreateOrder(db, productId, customerName, quantity, now).1;
    if after != db {
      var order := Order(db.nextOrderId, productId, customerName, quantity, now);
      forall pid | pid in db.products
        ensures Provisioned(after, pid) == Provisioned(db, pid)
      {
        CommittedAppend(db.orders, order, pid);
      }
    }
  }

  /** An update keeps the database's integrity and every product's provision. */
  lemma UpdateOrderQuantityConserves(db: Db, orderId: OrderId, newQuantity: int)
    requires Valid(db)
    ensures Valid(UpdateOrderQuantity(db, orderId, newQuantity).1)
    ensures Conserved(db, UpdateOrderQuantity(db, orderId, newQuantity).1)
  {
    var r := UpdateOrderQuantity(db, orderId, newQuantity);
    if r.0 == Done {
      var i := IndexOfOrder(db.orders, orderId).value;
      var order := db.orders[i];
      forall pid | pid in db.products
        ensures Provisioned(r.1, pid) == Provisioned(db, pid)
      {
        CommittedReplace(db.orders, i, order.(quantity := newQuantity), pid);
      }
    }
  }

  /** Where each entry of `s` lands once entry `i` is removed. */
  lemma RemovedAt<T>(s: seq<T>, i: nat, rest: seq<T>)
    requires i < |s|
    requires rest == s[..i] + s[i + 1..]
    ensures |rest| == |s| - 1
    ensures forall a :: 0 <= a < |rest| ==> rest[a] == s[if a < i then a else a + 1]
  {
  }

  /** A delete keeps the database's integrity and every product's provision. */
  lemma DeleteOrderConserves(db: Db, orderId: OrderId)
    requires Valid(db)
    ensures Valid(DeleteOrder(db, orderId).1)
    ensures Conserved(db, DeleteOrder(db, orderId).1)
  {
    var r := DeleteOrder(db, orderId);
    if r.0 == Done {
      var i := IndexOfOrder(db.orders, orderId).value;
      var rest := r.1.orders;
      RemovedAt(db.orders, i, rest);
      forall a, b | 0 <= a < b < |rest|
        ensures rest[a].id < rest[b].id
      {
        assert rest[a] == db.orders[if a < i then a else a + 1];
        assert rest[b] == db.orders[if b < i then b else b + 1];
      }
      forall a | 0 <= a < |rest|
        ensures rest[a].id < r.1.nextOrderId && rest[a].productId in r.1.products
      {
        assert rest[a] == db.orders[if a < i then a else a + 1];
      }
      forall pid | pid in db.products
        ensures Provisioned(r.1, pid) == Provisioned(db, pid)
      {
        CommittedRemove(db.orders, i, pid);
      }
    }
  }

  // ----- Single-endpoint behaviour -----

  /** Setting an order to the quantity it already has changes nothing; it is accepted
      whenever its product's stock is not negative. */
  lemma UpdateToSameQuantityKeepsState(db: Db, orderId: OrderId)
    requires Valid(db)
    requires IndexOfOrder(db.orders, orderId).Some?
    ensures var order := db.orders[IndexOfOrder(db.orders, orderId).value];
      && UpdateOrderQuantity(db, orderId, order.quantity).1 == db
      && (db.products[order.productId].stock >= 0 ==> UpdateOrderQuantity(db, orderId, order.quantity).0 == Done)
  {
    var i := IndexOfOrder(db.orders, orderId).value;
    var order := db.orders[i];
    var r := UpdateOrderQuantity(db, orderId, order.quantity);
    if r.0 == Done {
      assert db.orders[i := order.(quantity := order.quantity)] == db.orders;
      assert r.1.products == db.products;
    }
  }

  /** Deleting an order and then placing the same quantity of the same product again is
      accepted and leaves the product table exactly as it was. */
  lemma DeleteThenRecreateRestoresStock(db: Db, orderId: OrderId, customerName: string, now: Timestamp)
    requires Valid(db)
    requires IndexOfOrder(db.orders, orderId).Some?
    requires db.products[db.orders[IndexOfOrder(db.orders, orderId).value].productId].stock >= 0
    ensures var order := db.orders[IndexOfOrder(db.orders, orderId).value];
      var again := CreateOrder(DeleteOrder(db, orderId).1, order.productId, customerName, order.quantity, now);
      again.0.Created? && again.1.products == db.products
  {
    var order := db.orders[IndexOfOrder(db.orders, orderId).value];
    var deleted := DeleteOrder(db, orderId).1;
    var again := CreateOrder(deleted, order.productId, customerName, order.quantity, now);
    assert again.0.Created?;
    assert again.1.products == db.products;
  }

  // ----- Non-negative stock -----

  ghost predicate StockNonNegative(db: Db) {
    forall pid :: pid in db.products ==> db.products[pid].stock >= 0
  }

  ghost predicate QuantitiesPositive(db: Db) {
    forall i :: 0 <= i < |db.orders| ==> db.orders[i].quantity > 0
  }

  /** Integrity, no negative stock, and every order for a positive quantity. */
  ghost predicate Safe(db: Db) {
    Valid(db) && StockNonNegative(db) && QuantitiesPositive(db)
  }

  /** A create never drives any stock negative; with a positive quantity it keeps Safe. */
  lemma CreateOrderKeepsSafe(db: Db, productId: ProductId, customerName: string, quantity: int, now: Timestamp)
    requires Valid(db)
    ensures StockNonNegative(db) ==> StockNonNegative(CreateOrder(db, productId, customerName, quantity, now).1)
    ensures Safe(db) && quantity > 0 ==> Safe(CreateOrder(db, productId, customerName, quantity, now).1)
  {
    CreateOrderConserves(db, productId, customerName, quantity, now);
  }

  /** An update never drives any stock negative; with a positive quantity it keeps Safe. */
  lemma UpdateOrderQuantityKeepsSafe(db: Db, orderId: OrderId, newQuantity: int)
    requires Valid(db)
    ensures StockNonNegative(db) ==> StockNonNegative(UpdateOrderQuantity(db, orderId, newQuantity).1)
    ensures Safe(db) && newQuantity > 0 ==> Safe(UpdateOrderQuantity(db, orderId, newQuantity).1)
  {
    UpdateOrderQuantityConserves(db, orderId, newQuantity);
  }

  /** A delete keeps Safe: the quantity it gives back is positive. */
  lemma DeleteOrderKeepsSafe(db: Db, orderId: OrderId)
    requires Safe(db)
    ensures Safe(DeleteOrder(db, orderId).1)
  {
    DeleteOrderConserves(db, orderId);
    var r := DeleteOrder(db, orderId);
    if r.0 == Done {
      var i := IndexOfOrder(db.orders, orderId).value;
      var order := db.orders[i];
      RemovedAt(db.orders, i, r.1.orders);
      forall a | 0 <= a < |r.1.orders|
        ensures r.1.orders[a].quantity > 0
      {
        assert r.1.orders[a] == db.orders[if a < i then a else a + 1];
      }
      assert order.quantity > 0;
      forall pid | pid in r.1.products
        ensures r.1.products[pid].stock >= 0
      {
        assert pid in db.products;
      }
    }
  }

  /** The quantity of an order is never checked, so a non-positive quantity lets a later
      delete drive stock below zero: against a product with no stock, an order for -5
      raises the stock to 5, an order for 5 takes it back to 0, and deleting the first
      order leaves -5. */
  lemma UncheckedQuantityDrivesStockNegative(now: Timestamp)
    ensures var db0 := Db(map[1 := Product("Widget", 3, 0)], [], 1);
      var first := CreateOrder(db0, 1, "A", -5, now);
      var second := CreateOrder(first.1, 1, "B", 5, now);
      var last := DeleteOrder(second.1, first.0.orderId);
      && Valid(db0) && StockNonNegative(db0)
      && first.0 == Created(1) && second.0 == Created(2) && last.0 == Done
      && last.1.products[1].stock == -5
  {
    var db0 := Db(map[1 := Product("Widget", 3, 0)], [], 1);
    var first := CreateOrder(db0, 1, "A", -5, now);
    var second := CreateOrder(first.1, 1, "B", 5, now);
    assert second.1.orders[0].id == 1;
    assert IndexOfOrder(second.1.orders, 1) == Some(0);
  }

  // ----- The bulk endpoint -----

  /** The total quantity the requests in `requests` ask of product `pid`. */
  function Requested(requests: seq<OrderRequest>, pid: ProductId): int {
    if requests == [] then 0
    else
      var last := requests[|requests| - 1];
      Requested(requests[..|requests| - 1], pid) + (if last.productId == pid then last.quantity else 0)
  }

  /** The orders a batch appends, keyed consecutively from `firstId`. */
  function Placed(requests: seq<OrderRequest>, firstId: OrderId, now: Timestamp): seq<Order> {
    if requests == [] then []
    else
      var last := requests[|requests| - 1];
      Placed(requests[..|requests| - 1], firstId, now) + [Order(firstId + |requests| - 1, last.productId, last.customerName, last.quantity, now)]
  }

  /** Request `k` of a batch passes its checks: its product exists and the product's
      stock, after the quantities the earlier requests of the batch took from it, still
      covers the requested quantity. */
  ghost predicate Admissible(db: Db, requests: seq<OrderRequest>, k: nat)
    requires k < |requests|
  {
    var req := requests[k];
    && req.productId in db.products
    && db.products[req.productId].stock - Requested(requests[..k], req.productId) >= req.quantity
  }

  /** What the bulk loop has done after an accepted prefix: the new orders are appended
      under consecutive keys and each product's stock is lowered by what the batch asked of
      it. */
  lemma {:induction false} RunEffect(db: Db, requests: seq<OrderRequest>, now: Timestamp)
    requires Run(db, requests, now).Ok?
    ensures var after := Run(db, requests, now).value;
      && after.products.Keys == db.products.Keys
      && (forall pid :: pid in db.products ==>
            after.products[pid] == db.products[pid].(stock := db.products[pid].stock - Requested(requests, pid)))
      && after.orders == db.orders + Placed(requests, db.nextOrderId, now)
      && after.nextOrderId == db.nextOrderId + |requests|
    decreases |requests|
  {
    if requests != [] {
      var init := requests[..|requests| - 1];
      RunEffect(db, init, now);
      assert db.orders + Placed(requests, db.nextOrderId, now)
          == (db.orders + Placed(init, db.nextOrderId, now)) + [Order(db.nextOrderId + |requests| - 1, requests[|requests| - 1].productId, requests[|requests| - 1].customerName, requests[|requests| - 1].quantity, now)];
    }
  }

  /** Admissibility of request `k` depends only on the requests up to `k`. */
  lemma AdmissibleInPrefix(db: Db, requests: seq<OrderRequest>, n: nat, k: nat)
    requires k < n <= |requests|
    ensures Admissible(db, requests[..n], k) == Admissible(db, requests, k)
  {
    assert requests[..n][..k] == requests[..k];
  }

  /** The loop accepts a batch exactly when every request passes its checks against the
      stock left by the requests before it. */
  lemma {:induction false} RunSucceedsIff(db: Db, requests: seq<OrderRequest>, now: Timestamp)
    ensures Run(db, requests, now).Ok? <==> forall k :: 0 <= k < |requests| ==> Admissible(db, requests, k)
    decreases |requests|
  {
    if requests != [] {
      var n := |requests| - 1;
      var init := requests[..n];
      RunSucceedsIff(db, init, now);
      forall k | 0 <= k < n
        ensures Admissible(db, init, k) == Admissible(db, requests, k)
      {
        AdmissibleInPrefix(db, requests, n, k);
      }
      if Run(db, init, now).Ok? {
        RunEffect(db, init, now);
        var working := Run(db, init, now).value;
        var req := requests[n];
        assert requests[..n] == init;
        if req.productId in db.products {
          assert working.products[req.productId].stock
              == db.products[req.productId].stock - Requested(init, req.productId);
        }
        assert Run(db, requests, now).Ok? <==> Admissible(db, requests, n);
      }
    }
  }

  /** The first request that fails its checks decides the error the batch reports. */
  lemma {:induction false} RunFailsAtFirstInadmissible(db: Db, requests: seq<OrderRequest>, k: nat, now: Timestamp)
    requires k < |requests|
    requires forall j :: 0 <= j < k ==> Admissible(db, requests, j)
    requires !Admissible(db, requests, k)
    ensures Run(db, requests, now)
         == Err(if requests[k].productId !in db.products then ProductNotFound else InsufficientStock)
    decreases |requests|
  {
    var n := |requests| - 1;
    var init := requests[..n];
    if k == n {
      forall j | 0 <= j < n
        ensures Admissible(db, init, j)
      {
        AdmissibleInPrefix(db, requests, n, j);
      }
      RunSucceedsIff(db, init, now);
      RunEffect(db, init, now);
    } else {
      forall j | 0 <= j <= k
        ensures Admissible(db, init, j) == Admissible(db, requests, j)
      {
        AdmissibleInPrefix(db, requests, n, j);
      }
      RunFailsAtFirstInadmissible(db, init, k, now);
    }
  }

  /** One more request of the batch, against the state the earlier requests left: an
      unknown product or too little stock refuses the batch. */
  lemma RunStepRefused(db: Db, requests: seq<OrderRequest>, i: nat, working: Db, now: Timestamp)
    requires i < |requests|
    requires Run(db, requests[..i], now) == Ok(working)
    ensures requests[i].productId !in working.products ==>
      Run(db, requests[..i + 1], now) == Err(ProductNotFound)
    ensures requests[i].productId in working.products && working.products[requests[i].productId].stock < requests[i].quantity ==>
      Run(db, requests[..i + 1], now) == Err(InsufficientStock)
  {
    assert requests[..i + 1][..i] == requests[..i];
  }

  /** One more request of the batch that passes its checks: the order is appended under the
      next key and its quantity taken from that product's stock. */
  lemma RunStepAccepted(db: Db, requests: seq<OrderRequest>, i: nat, working: Db, next: Db, now: Timestamp)
    requires i < |requests|
    requires Run(db, requests[..i], now) == Ok(working)
    requires requests[i].productId in working.products
    requires working.products[requests[i].productId].stock >= requests[i].quantity
    requires next.products == working.products[requests[i].productId :=
      working.products[requests[i].productId].(stock := working.products[requests[i].productId].stock - requests[i].quantity)]
    requires next.orders == working.orders + [Order(working.nextOrderId, requests[i].productId, requests[i].customerName, requests[i].quantity, now)]
    requires next.nextOrderId == working.nextOrderId + 1
    ensures Run(db, requests[..i + 1], now) == Ok(next)
  {
    assert requests[..i + 1][..i] == requests[..i];
  }

  /** Once a prefix of the batch is refused, the whole batch is refused the same way. */
  lemma {:induction false} RunFailureIsFinal(db: Db, requests: seq<OrderRequest>, k: nat, now: Timestamp)
    requires k <= |requests|
    requires Run(db, requests[..k], now).Err?
    ensures Run(db, requests, now) == Run(db, requests[..k], now)
    decreases |requests|
  {
    if k == |requests| {
      assert requests[..k] == requests;
    } else {
      var init := requests[..|requests| - 1];
      assert init[..k] == requests[..k];
      RunFailureIsFinal(db, init, k, now);
    }
  }

  /** The ordering of keys survives appending orders keyed from the counter. */
  lemma {:induction false} RunPreservesValid(db: Db, requests: seq<OrderRequest>, now: Timestamp)
    requires Valid(db)
    requires Run(db, requests, now).Ok?
    ensures Valid(Run(db, requests, now).value)
    decreases |requests|
  {
    if requests != [] {
      var init := requests[..|requests| - 1];
      RunPreservesValid(db, init, now);
      var working := Run(db, init, now).value;
      var req := requests[|requests| - 1];
      CreateOrderConserves(working, req.productId, req.customerName, req.quantity, now);
    }
  }

  lemma {:induction false} CommittedPlaced(requests: seq<OrderRequest>, firstId: OrderId, now: Timestamp, pid: ProductId)
    ensures Committed(Placed(requests, firstId, now), pid) == Requested(requests, pid)
    decreases |requests|
  {
    if requests != [] {
      var init := requests[..|requests| - 1];
      var last := requests[|requests| - 1];
      CommittedPlaced(init, firstId, now, pid);
      CommittedAppend(Placed(init, firstId, now), Order(firstId + |requests| - 1, last.productId, last.customerName, last.quantity, now), pid);
    }
  }

  /** The bulk endpoint is all-or-nothing: it succeeds exactly when the batch is not empty
      and every request passes its checks against the stock the earlier requests left; an
      empty or refused batch leaves the state as it was; an accepted batch appends one order
      per request and lowers each product's stock by what the batch asked of it. */
  lemma BulkIsAllOrNothing(db: Db, requests: seq<OrderRequest>, now: Timestamp)
    ensures var r := CreateBulkOrders(db, requests, now);
      && (r.0 == Done <==> requests != [] && forall k :: 0 <= k < |requests| ==> Admissible(db, requests, k))
      && (r.0 != Done ==> r.1 == db)
      && (r.0 == Done ==>
            && r.1.products.Keys == db.products.Keys
            && r.1.orders == db.orders + Placed(requests, db.nextOrderId, now)
            && |r.1.orders| == |db.orders| + |requests|
            && r.1.nextOrderId == db.nextOrderId + |requests|
            && (forall pid :: pid in db.products ==>
                  r.1.products[pid] == db.products[pid].(stock := db.products[pid].stock - Requested(requests, pid))))
  {
    RunSucceedsIff(db, requests, now);
    if CreateBulkOrders(db, requests, now).0 == Done {
      RunEffect(db, requests, now);
      PlacedLength(requests, db.nextOrderId, now);
    }
  }

  /** The bulk endpoint keeps the database's integrity and every product's provision. */
  lemma BulkConserves(db: Db, requests: seq<OrderRequest>, now: Timestamp)
    requires Valid(db)
    ensures Valid(CreateBulkOrders(db, requests, now).1)
    ensures Conserved(db, CreateBulkOrders(db, requests, now).1)
  {
    var r := CreateBulkOrders(db, requests, now);
    if r.0 == Done {
      RunEffect(db, requests, now);
      RunPreservesValid(db, requests, now);
      forall pid | pid in db.products
        ensures Provisioned(r.1, pid) == Provisioned(db, pid)
      {
        CommittedConcat(db.orders, Placed(requests, db.nextOrderId, now), pid);
        CommittedPlaced(requests, db.nextOrderId, now, pid);
      }
    }
  }

  lemma {:induction false} PlacedLength(requests: seq<OrderRequest>, firstId: OrderId, now: Timestamp)
    ensures |Placed(requests, firstId, now)| == |requests|
    decreases |requests|
  {
    if requests != [] {
      PlacedLength(requests[..|requests| - 1], firstId, now);
    }
  }

  /** With positive quantities throughout, an accepted batch keeps Safe. */
  lemma {:induction false} RunKeepsSafe(db: Db, requests: seq<OrderRequest>, now: Timestamp)
    requires Safe(db)
    requires forall k :: 0 <= k < |requests| ==> requests[k].quantity > 0
    requires Run(db, requests, now).Ok?
    ensures Safe(Run(db, requests, now).value)
    decreases |requests|
  {
    if requests != [] {
      var init := requests[..|requests| - 1];
      RunKeepsSafe(db, init, now);
      var working := Run(db, init, now).value;
      var req := requests[|requests| - 1];
      CreateOrderKeepsSafe(working, req.productId, req.customerName, req.quantity, now);
    }
  }
}
