/** The five read-only reports of the orders controller, as functions of one database state,
    with what each promises and how each follows the mutating endpoints. */
module Reports {
  import opened Models
  import opened Ledger
  import LedgerProperties

  // ----- Order listing -----

  /** An order joined with the name and unit price of its product. */
  datatype OrderRow = OrderRow(orderId: OrderId, customerName: string, quantity: int, orderDate: Timestamp,
                               productName: string, unitPrice: int)

  function Row(o: Order, p: Product): OrderRow {
    OrderRow(o.id, o.customerName, o.quantity, o.orderDate, p.name, p.unitPrice)
  }

  /** Every order with its product's details, in table order. */
  function AllOrders(db: Db): (rows: seq<OrderRow>)
    requires forall i :: 0 <= i < |db.orders| ==> db.orders[i].productId in db.products
    ensures |rows| == |db.orders|
    ensures forall i :: 0 <= i < |rows| ==> rows[i] == Row(db.orders[i], db.products[db.orders[i].productId])
    decreases |db.orders|
  {
    if db.orders == [] then []
    else
      var last := db.orders[|db.orders| - 1];
      AllOrders(db.(orders := db.orders[..|db.orders| - 1])) + [Row(last, db.products[last.productId])]
  }

  /** The listing of a table that gained order `o` at its end, over a catalog that shows every
      order as before. */
  lemma ListingWith(db: Db, after: Db, o: Order)
    requires forall i :: 0 <= i < |db.orders| ==> db.orders[i].productId in db.products
    requires o.productId in after.products
    requires after.orders == db.orders + [o]
    requires SameDetails(db, after)
    ensures forall i :: 0 <= i < |after.orders| ==> after.orders[i].productId in after.products
    ensures AllOrders(after) == AllOrders(db) + [Row(o, after.products[o.productId])]
  {
    assert forall i :: 0 <= i < |after.orders| ==> after.orders[i].productId in after.products by {
      forall i | 0 <= i < |after.orders|
        ensures after.orders[i].productId in after.products
      {
        if i < |db.orders| {
          assert after.orders[i] == db.orders[i];
        }
      }
    }
    var rows := AllOrders(after);
    var expected := AllOrders(db) + [Row(o, after.products[o.productId])];
    forall i | 0 <= i < |rows|
      ensures rows[i] == expected[i]
    {
      if i < |db.orders| {
        assert after.orders[i] == db.orders[i];
      }
    }
  }

  /** The listing of a table that lost its order at position `i`, over a catalog that shows
      every order as before. */
  lemma ListingWithout(db: Db, after: Db, i: nat)
    requires forall k :: 0 <= k < |db.orders| ==> db.orders[k].productId in db.products
    requires i < |db.orders|
    requires after.orders == db.orders[..i] + db.orders[i + 1..]
    requires SameDetails(db, after)
    ensures forall k :: 0 <= k < |after.orders| ==> after.orders[k].productId in after.products
    ensures AllOrders(after) == AllOrders(db)[..i] + AllOrders(db)[i + 1..]
  {
    LedgerProperties.RemovedAt(db.orders, i, after.orders);
    var rows := AllOrders(after);
    var before := AllOrders(db);
    var expected := before[..i] + before[i + 1..];
    LedgerProperties.RemovedAt(before, i, expected);
    forall k | 0 <= k < |rows|
      ensures rows[k] == expected[k]
    {
      var j := if k < i then k else k + 1;
      var o := db.orders[j];
      assert after.orders[k] == o;
      assert expected[k] == Row(o, db.products[o.productId]);
    }
  }

  /** `after`'s catalog shows every product of `before` with the same name and price. */
  ghost predicate SameDetails(before: Db, after: Db) {
    forall p :: p in before.products ==>
      && p in after.products
      && after.products[p].name == before.products[p].name
      && after.products[p].unitPrice == before.products[p].unitPrice
  }

  /** A stock movement changes no product's name or price. */
  lemma DebitedKeepsDetails(before: Db, after: Db, pid: ProductId, amount: int)
    requires pid in before.products
    requires Debited(before, after, pid, amount)
    ensures SameDetails(before, after)
  {
  }

  /** A create that is accepted adds exactly one row to the listing, at its end, and leaves
      every earlier row as it was. */
  lemma AllOrdersAfterCreate(db: Db, productId: ProductId, customerName: string, quantity: int, now: Timestamp)
    requires Valid(db)
    requires CreateOrder(db, productId, customerName, quantity, now).0.Created?
    ensures var after := CreateOrder(db, productId, customerName, quantity, now).1;
      && (forall i :: 0 <= i < |after.orders| ==> after.orders[i].productId in after.products)
      && AllOrders(after) == AllOrders(db) + [Row(after.orders[|db.orders|], db.products[productId])]
  {
    var after := CreateOrder(db, productId, customerName, quantity, now).1;
    DebitedKeepsDetails(db, after, productId, quantity);
    ListingWith(db, after, Order(db.nextOrderId, productId, customerName, quantity, now));
  }

  /** A delete that is accepted removes exactly that order's row from the listing. */
  lemma AllOrdersAfterDelete(db: Db, orderId: OrderId)
    requires Valid(db)
    requires IndexOfOrder(db.orders, orderId).Some?
    ensures var i := IndexOfOrder(db.orders, orderId).value;
      var after := DeleteOrder(db, orderId).1;
      && (forall k :: 0 <= k < |after.orders| ==> after.orders[k].productId in after.products)
      && AllOrders(after) == AllOrders(db)[..i] + AllOrders(db)[i + 1..]
  {
    var i := IndexOfOrder(db.orders, orderId).value;
    var after := DeleteOrder(db, orderId).1;
    DebitedKeepsDetails(db, after, db.orders[i].productId, -db.orders[i].quantity);
    ListingWithout(db, after, i);
  }

  // ----- Per-product summary -----

  /** The totals the summary shows for one product. */
  datatype ProductTotals = ProductTotals(productName: string, totalQuantity: int, totalRevenue: int)

  /** Whether some order references product `pid`. */
  function Referenced(orders: seq<Order>, pid: ProductId): (b: bool)
    ensures b <==> exists i :: 0 <= i < |orders| && orders[i].productId == pid
    decreases |orders|
  {
    if orders == [] then false
    else
      var init := orders[..|orders| - 1];
      assert forall i :: 0 <= i < |init| ==> init[i] == orders[i];
      Referenced(init, pid) || orders[|orders| - 1].productId == pid
  }

  /** What the orders of product `pid` bring in at `unitPrice`: each order's quantity times
      the price, summed over the orders. */
  function Revenue(orders: seq<Order>, pid: ProductId, unitPrice: int): int {
    if orders == [] then 0
    else Revenue(orders[..|orders| - 1], pid, unitPrice) + Share(orders[|orders| - 1], pid) * unitPrice
  }

  /** Summing each order's revenue gives the unit price times the total quantity. */
  lemma {:induction false} RevenueIsPriceTimesQuantity(orders: seq<Order>, pid: ProductId, unitPrice: int)
    ensures Revenue(orders, pid, unitPrice) == unitPrice * Committed(orders, pid)
    decreases |orders|
  {
    if orders != [] {
      var init := orders[..|orders| - 1];
      RevenueIsPriceTimesQuantity(init, pid, unitPrice);
      var share := Share(orders[|orders| - 1], pid);
      assert unitPrice * (Committed(init, pid) + share) == unitPrice * Committed(init, pid) + unitPrice * share;
    }
  }

  /** For each product that has orders: its name, the total quantity ordered and the revenue
      of those orders. */
  function ProductSummary(db: Db): (summary: map<ProductId, ProductTotals>)
    ensures forall pid :: pid in summary <==> pid in db.products && exists i :: 0 <= i < |db.orders| && db.orders[i].productId == pid
    ensures forall pid :: pid in summary ==>
      && summary[pid].productName == db.products[pid].name
      && summary[pid].totalQuantity == Committed(db.orders, pid)
      && summary[pid].totalRevenue == db.products[pid].unitPrice * summary[pid].totalQuantity
  {
    assert forall pid :: pid in db.products ==>
        Revenue(db.orders, pid, db.products[pid].unitPrice) == db.products[pid].unitPrice * Committed(db.orders, pid) by {
      forall pid | pid in db.products
        ensures Revenue(db.orders, pid, db.products[pid].unitPrice) == db.products[pid].unitPrice * Committed(db.orders, pid)
      {
        RevenueIsPriceTimesQuantity(db.orders, pid, db.products[pid].unitPrice);
      }
    }
    map pid | pid in db.products && Referenced(db.orders, pid) ::
      var product := db.products[pid];
      ProductTotals(product.name, Committed(db.orders, pid), Revenue(db.orders, pid, product.unitPrice))
  }

  // ----- Low stock -----

  /** The products whose stock is below `threshold`. */
  function LowStockProducts(db: Db, threshold: int): (low: map<ProductId, Product>)
    ensures forall pid :: pid in low <==> pid in db.products && db.products[pid].stock < threshold
    ensures forall pid :: pid in low ==> low[pid] == db.products[pid]
  {
    map pid | pid in db.products && db.products[pid].stock < threshold :: db.products[pid]
  }

  /** An accepted create can put only its own product on the low-stock report, and takes
      none off it. */
  lemma CreateOnlyAddsItsProductToLowStock(db: Db, productId: ProductId, customerName: string, quantity: int,
                                           now: Timestamp, threshold: int)
    requires CreateOrder(db, productId, customerName, quantity, now).0.Created?
    requires quantity >= 0
    ensures var after := CreateOrder(db, productId, customerName, quantity, now).1;
      LowStockProducts(db, threshold).Keys <= LowStockProducts(after, threshold).Keys <= LowStockProducts(db, threshold).Keys + {productId}
  {
  }

  // ----- Products never ordered -----

  /** The products no order references. */
  function UnorderedProducts(db: Db): (idle: map<ProductId, Product>)
    ensures forall pid :: pid in idle <==> pid in db.products && forall i :: 0 <= i < |db.orders| ==> db.orders[i].productId != pid
    ensures forall pid :: pid in idle ==> idle[pid] == db.products[pid]
  {
    map pid | pid in db.products && !Referenced(db.orders, pid) :: db.products[pid]
  }

  /** The summary and the not-ordered report split the catalog between them. */
  lemma SummaryAndUnorderedPartitionCatalog(db: Db)
    ensures ProductSummary(db).Keys !! UnorderedProducts(db).Keys
    ensures ProductSummary(db).Keys + UnorderedProducts(db).Keys == db.products.Keys
  {
  }

  lemma {:induction false} CommittedUnreferenced(orders: seq<Order>, pid: ProductId)
    requires forall i :: 0 <= i < |orders| ==> orders[i].productId != pid
    ensures Committed(orders, pid) == 0
    decreases |orders|
  {
    if orders != [] {
      CommittedUnreferenced(orders[..|orders| - 1], pid);
    }
  }

  /** A product nobody ordered holds its whole provision as stock. */
  lemma UnorderedHoldsWholeProvision(db: Db, pid: ProductId)
    requires pid in UnorderedProducts(db)
    ensures Provisioned(db, pid) == db.products[pid].stock
  {
    CommittedUnreferenced(db.orders, pid);
  }

  // ----- Top customers -----

  /** A customer with the total quantity of all their orders. */
  datatype CustomerTotal = CustomerTotal(customerName: string, totalQuantity: int)

  /** The customer names of `orders`, each once, in order of first appearance. */
  function Customers(orders: seq<Order>): (names: seq<string>)
    ensures forall i, j :: 0 <= i < j < |names| ==> names[i] != names[j]
    ensures forall c :: c in names <==> exists k :: 0 <= k < |orders| && orders[k].customerName == c
    decreases |orders|
  {
    if orders == [] then []
    else
      var init := orders[..|orders| - 1];
      assert forall k :: 0 <= k < |init| ==> init[k] == orders[k];
      var earlier := Customers(init);
      var c := orders[|orders| - 1].customerName;
      if c in earlier then earlier else earlier + [c]
  }

  /** The total quantity customer `c` ordered. */
  function QuantityOf(orders: seq<Order>, c: string): int {
    if orders == [] then 0
    else
      var last := orders[|orders| - 1];
      QuantityOf(orders[..|orders| - 1], c) + (if last.customerName == c then last.quantity else 0)
  }

  /** One entry per customer, in order of first appearance (the grouping step). */
  function Tally(orders: seq<Order>): seq<CustomerTotal> {
    var names := Customers(orders);
    seq(|names|, i requires 0 <= i < |names| => CustomerTotal(names[i], QuantityOf(orders, names[i])))
  }

  ghost predicate NonIncreasing(ts: seq<CustomerTotal>) {
    forall i, j :: 0 <= i < j < |ts| ==> ts[i].totalQuantity >= ts[j].totalQuantity
  }

  ghost predicate DistinctNames(ts: seq<CustomerTotal>) {
    forall i, j :: 0 <= i < j < |ts| ==> ts[i].customerName != ts[j].customerName
  }

  /** Puts `t` after every entry whose total is at least its own. */
  function InsertByTotal(t: CustomerTotal, ts: seq<CustomerTotal>): (r: seq<CustomerTotal>)
    requires NonIncreasing(ts)
    ensures NonIncreasing(r)
    ensures multiset(r) == multiset(ts) + multiset{t}
  {
    if ts == [] then [t]
    else if ts[0].totalQuantity >= t.totalQuantity then
      var rest := InsertByTotal(t, ts[1..]);
      assert ts == [ts[0]] + ts[1..];
      AtMost(ts[0].totalQuantity, t, ts[1..], rest);
      [ts[0]] + rest
    else
      [t] + ts
  }

  /** A bound on the totals of `tail` and on `t` bounds every total of a rearrangement of both. */
  lemma AtMost(bound: int, t: CustomerTotal, tail: seq<CustomerTotal>, rest: seq<CustomerTotal>)
    requires bound >= t.totalQuantity
    requires forall k :: 0 <= k < |tail| ==> bound >= tail[k].totalQuantity
    requires multiset(rest) == multiset(tail) + multiset{t}
    ensures forall j :: 0 <= j < |rest| ==> bound >= rest[j].totalQuantity
  {
    forall j | 0 <= j < |rest|
      ensures bound >= rest[j].totalQuantity
    {
      assert rest[j] in multiset(rest);
      if rest[j] != t {
        assert rest[j] in multiset(tail);
        var k :| 0 <= k < |tail| && tail[k] == rest[j];
      }
    }
  }

  lemma {:induction false} InsertKeepsNamesDistinct(t: CustomerTotal, ts: seq<CustomerTotal>)
    requires NonIncreasing(ts) && DistinctNames(ts)
    requires forall i :: 0 <= i < |ts| ==> ts[i].customerName != t.customerName
    ensures DistinctNames(InsertByTotal(t, ts))
    decreases |ts|
  {
    if ts != [] && ts[0].totalQuantity >= t.totalQuantity {
      var rest := InsertByTotal(t, ts[1..]);
      InsertKeepsNamesDistinct(t, ts[1..]);
      forall x | x in rest
        ensures x.customerName != ts[0].customerName
      {
        assert x in multiset(rest);
      }
    }
  }

  /** A stable sort by total, largest first (the ordering step). */
  function SortByTotal(ts: seq<CustomerTotal>): (r: seq<CustomerTotal>)
    ensures NonIncreasing(r)
    ensures multiset(r) == multiset(ts)
    decreases |ts|
  {
    if ts == [] then []
    else
      assert ts == ts[..|ts| - 1] + [ts[|ts| - 1]];
      InsertByTotal(ts[|ts| - 1], SortByTotal(ts[..|ts| - 1]))
  }

  lemma {:induction false} SortKeepsNamesDistinct(ts: seq<CustomerTotal>)
    requires DistinctNames(ts)
    ensures DistinctNames(SortByTotal(ts))
    decreases |ts|
  {
    if ts != [] {
      var init := ts[..|ts| - 1];
      var last := ts[|ts| - 1];
      var sorted := SortByTotal(init);
      SortKeepsNamesDistinct(init);
      forall i | 0 <= i < |sorted|
        ensures sorted[i].customerName != last.customerName
      {
        assert sorted[i] in multiset(init);
        var k :| 0 <= k < |init| && init[k] == sorted[i];
        assert ts[k] == sorted[i];
      }
      InsertKeepsNamesDistinct(last, sorted);
    }
  }

  /** The ranking before the cut: one entry per customer, each with that customer's total. */
  lemma RankingCoversCustomers(orders: seq<Order>)
    ensures var ranked := SortByTotal(Tally(orders));
      var customers := Customers(orders);
      && |ranked| == |customers|
      && DistinctNames(ranked)
      && (forall i :: 0 <= i < |ranked| ==>
            ranked[i].customerName in customers && ranked[i].totalQuantity == QuantityOf(orders, ranked[i].customerName))
      && (forall c :: c in customers ==> exists j :: 0 <= j < |ranked| && ranked[j].customerName == c)
  {
    var customers := Customers(orders);
    var tally := Tally(orders);
    var ranked := SortByTotal(tally);
    assert |ranked| == |tally| by {
      assert |multiset(ranked)| == |multiset(tally)|;
    }
    SortKeepsNamesDistinct(tally);
    forall i | 0 <= i < |ranked|
      ensures ranked[i].customerName in customers && ranked[i].totalQuantity == QuantityOf(orders, ranked[i].customerName)
    {
      assert ranked[i] in multiset(tally);
    }
    forall c | c in customers
      ensures exists j :: 0 <= j < |ranked| && ranked[j].customerName == c
    {
      var k :| 0 <= k < |customers| && customers[k] == c;
      assert tally[k] in multiset(ranked);
      var j :| 0 <= j < |ranked| && ranked[j] == tally[k];
      assert ranked[j].customerName == c;
    }
  }

  /** The three customers with the largest totals, largest first (the taking step). */
  function TopCustomers(db: Db): (top: seq<CustomerTotal>)
    ensures |top| <= 3
    ensures NonIncreasing(top)
  {
    var ranked := SortByTotal(Tally(db.orders));
    if |ranked| <= 3 then ranked else ranked[..3]
  }

  /** Cutting a ranking of every customer after its first three entries keeps the largest
      totals: whoever is cut off ordered no more than the last one kept. */
  lemma CutKeepsTheTop(orders: seq<Order>, ranked: seq<CustomerTotal>, customers: seq<string>, top: seq<CustomerTotal>)
    requires NonIncreasing(ranked) && DistinctNames(ranked)
    requires |ranked| == |customers|
    requires forall i :: 0 <= i < |ranked| ==>
      ranked[i].customerName in customers && ranked[i].totalQuantity == QuantityOf(orders, ranked[i].customerName)
    requires forall c :: c in customers ==> exists j :: 0 <= j < |ranked| && ranked[j].customerName == c
    requires top == if |ranked| <= 3 then ranked else ranked[..3]
    ensures |top| == (if |customers| < 3 then |customers| else 3)
    ensures DistinctNames(top)
    ensures forall i :: 0 <= i < |top| ==>
      top[i].customerName in customers && top[i].totalQuantity == QuantityOf(orders, top[i].customerName)
    ensures forall c :: c in customers && (forall i :: 0 <= i < |top| ==> top[i].customerName != c) ==>
      |top| == 3 && QuantityOf(orders, c) <= top[2].totalQuantity
  {
    forall c | c in customers && (forall i :: 0 <= i < |top| ==> top[i].customerName != c)
      ensures |top| == 3 && QuantityOf(orders, c) <= top[2].totalQuantity
    {
      var j :| 0 <= j < |ranked| && ranked[j].customerName == c;
      assert j >= |top|;
    }
  }

  /** The top-customers report lists min(3, number of customers) distinct customers, each
      with the total quantity of their orders, largest total first, and no customer left
      out ordered more than the last one listed. */
  lemma TopCustomersAreTheTop(db: Db)
    ensures var top := TopCustomers(db);
      var customers := Customers(db.orders);
      && |top| == (if |customers| < 3 then |customers| else 3)
      && DistinctNames(top)
      && (forall i :: 0 <= i < |top| ==>
            top[i].customerName in customers && top[i].totalQuantity == QuantityOf(db.orders, top[i].customerName))
      && (forall c :: c in customers && (forall i :: 0 <= i < |top| ==> top[i].customerName != c) ==>
            |top| == 3 && QuantityOf(db.orders, c) <= top[2].totalQuantity)
  {
    RankingCoversCustomers(db.orders);
    CutKeepsTheTop(db.orders, SortByTotal(Tally(db.orders)), Customers(db.orders), TopCustomers(db));
  }
}
