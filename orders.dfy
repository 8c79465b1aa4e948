/**
 * The checkout transaction as a function on the tables, and what it promises.
 *
 * The checkout query (cart_items INNER JOIN products for one user) has no
 * ORDER BY, so the order of its rows is not fixed. The specification takes
 * that order as a parameter `lines`: any listing of the joined cart ids
 * (`Enumerates(lines, JoinedIds(db, user))`). Every lemma below holds for
 * every such listing.
 */
module Orders {
  import opened Tables

  datatype CheckoutOutcome = EmptyCart | InsufficientStock | Placed(order: OrderId)

  /** One row of the checkout query: the line's product and quantity, with that product's price and stock. */
  datatype Row = Row(product: ProductId, qty: int, price: Price, stock: int)

  /** The status every new order gets. */
  const PlacedStatus: string := "Placed"

  /** `lines` is an order in which the checkout query may return the user's joined cart lines. */
  ghost predicate JoinOrder(db: Db, user: UserId, lines: seq<CartId>)
  {
    Enumerates(lines, JoinedIds(db, user))
  }

  ghost predicate Joinable(db: Db, lines: seq<CartId>)
  {
    forall k :: 0 <= k < |lines| ==> lines[k] in db.cart && db.cart[lines[k]].product in db.products
  }

  ghost function RowOf(db: Db, id: CartId): Row
    requires id in db.cart && db.cart[id].product in db.products
  {
    var c := db.cart[id];
    Row(c.product, c.qty, db.products[c.product].price, db.products[c.product].stock)
  }

  /** The rows the checkout query returns when it lists the cart ids `lines`. */
  ghost function RowsOf(db: Db, lines: seq<CartId>): (rows: seq<Row>)
    requires Joinable(db, lines)
    ensures |rows| == |lines|
    ensures forall k :: 0 <= k < |lines| ==> rows[k] == RowOf(db, lines[k])
  {
    if lines == [] then []
    else RowsOf(db, lines[..|lines| - 1]) + [RowOf(db, lines[|lines| - 1])]
  }

  /** Listing one more joinable cart id appends its row. */
  lemma RowsOfSnoc(db: Db, lines: seq<CartId>, id: CartId)
    requires Joinable(db, lines) && id in db.cart && db.cart[id].product in db.products
    ensures Joinable(db, lines + [id])
    ensures RowsOf(db, lines + [id]) == RowsOf(db, lines) + [RowOf(db, id)]
  {
    assert (lines + [id])[..|lines|] == lines;
  }

  predicate AllInStock(rows: seq<Row>)
  {
    forall k :: 0 <= k < |rows| ==> rows[k].qty <= rows[k].stock
  }

  /** The order line a query row becomes: quantity and price are copied from the row. */
  function LineItem(order: OrderId, r: Row): OrderItem
  {
    OrderItem(order, r.product, r.qty, r.price)
  }

  /** One iteration of the insert loop: insert the order line, then take its quantity off the product's stock. */
  ghost function InsertLine(db: Db, order: OrderId, r: Row): Db
  {
    var products :=
      if r.product in db.products
      then db.products[r.product := db.products[r.product].(stock := db.products[r.product].stock - r.qty)]
      else db.products;
    db.(orderItems := db.orderItems[db.nextOrderItemId := LineItem(order, r)],
        nextOrderItemId := db.nextOrderItemId + 1,
        products := products)
  }

  /** The insert loop run over `rows`, first row first. */
  ghost function InsertLines(db: Db, order: OrderId, rows: seq<Row>): Db
  {
    if rows == [] then db
    else InsertLine(InsertLines(db, order, rows[..|rows| - 1]), order, rows[|rows| - 1])
  }

  /**
   * checkout: an empty join reports EmptyCart, a row asking for more than its
   * stock reports InsufficientStock, and both leave the tables alone; else one
   * order is created, its lines are inserted while stock is taken off, and all
   * of the user's cart lines are deleted (also those the join did not return).
   */
  ghost function Checkout(db: Db, user: UserId, createdAt: string, lines: seq<CartId>): Step<CheckoutOutcome>
    requires JoinOrder(db, user, lines)
  {
    assert Joinable(db, lines);
    var rows := RowsOf(db, lines);
    if rows == [] then Step(EmptyCart, db)
    else if !AllInStock(rows) then Step(InsufficientStock, db)
    else Step(Placed(db.nextOrderId), PlaceOrder(db, user, createdAt, rows))
  }

  /** The writes of a validated checkout: the order row, the insert loop, the cart deletion. */
  ghost function PlaceOrder(db: Db, user: UserId, createdAt: string, rows: seq<Row>): Db
  {
    var order := db.nextOrderId;
    var filled := InsertLines(OrderRow(db, user, createdAt), order, rows);
    filled.(cart := CartWithout(filled.cart, user))
  }

  /** The tables right after the INSERT INTO orders. */
  ghost function OrderRow(db: Db, user: UserId, createdAt: string): Db
  {
    db.(orders := db.orders[db.nextOrderId := Order(user, createdAt, PlacedStatus)],
        nextOrderId := db.nextOrderId + 1)
  }

  // ---------------------------------------------------------------------------
  // The insert loop

  /** No product appears in two rows (what cart uniqueness gives one user's rows). */
  ghost predicate DistinctProducts(rows: seq<Row>)
  {
    forall i, j :: 0 <= i < j < |rows| ==> rows[i].product != rows[j].product
  }

  ghost predicate NotInRows(rows: seq<Row>, p: ProductId)
  {
    forall k :: 0 <= k < |rows| ==> rows[k].product != p
  }

  /** Running the loop over one more row is one more iteration. */
  lemma InsertLinesSnoc(db: Db, order: OrderId, rows: seq<Row>, i: nat)
    requires i < |rows|
    ensures InsertLines(db, order, rows[..i + 1]) == InsertLine(InsertLines(db, order, rows[..i]), order, rows[i])
  {
    assert rows[..i + 1][..i] == rows[..i];
  }

  /** The insert loop adds one order line per row under consecutive fresh ids and touches no other table. */
  lemma {:induction false} InsertLinesItems(db: Db, order: OrderId, rows: seq<Row>)
    requires forall id :: id in db.orderItems ==> id < db.nextOrderItemId
    ensures var r := InsertLines(db, order, rows);
      && r.cart == db.cart && r.orders == db.orders
      && r.nextProductId == db.nextProductId && r.nextCartId == db.nextCartId && r.nextOrderId == db.nextOrderId
      && r.nextOrderItemId == db.nextOrderItemId + |rows|
      && (forall id :: id in r.orderItems <==> id in db.orderItems || db.nextOrderItemId <= id < r.nextOrderItemId)
      && (forall id :: id in db.orderItems ==> r.orderItems[id] == db.orderItems[id])
      && (forall k :: 0 <= k < |rows| ==> r.orderItems[db.nextOrderItemId + k] == LineItem(order, rows[k]))
      && r.products.Keys == db.products.Keys
      && (forall p :: p in db.products ==> r.products[p] == db.products[p].(stock := r.products[p].stock))
  {
    if rows != [] {
      InsertLinesItems(db, order, rows[..|rows| - 1]);
    }
  }

  /** With distinct products, each row's product loses exactly that row's quantity; other products keep theirs. */
  lemma {:induction false} InsertLinesStock(db: Db, order: OrderId, rows: seq<Row>)
    requires DistinctProducts(rows)
    ensures var r := InsertLines(db, order, rows);
      && r.products.Keys == db.products.Keys
      && (forall k :: 0 <= k < |rows| && rows[k].product in db.products ==>
            r.products[rows[k].product].stock == db.products[rows[k].product].stock - rows[k].qty)
      && (forall p :: p in db.products && NotInRows(rows, p) ==> r.products[p] == db.products[p])
  {
    if rows != [] {
      var init := rows[..|rows| - 1];
      var last := rows[|rows| - 1];
      InsertLinesStock(db, order, init);
      assert NotInRows(init, last.product);
      forall p | p in db.products && NotInRows(rows, p)
        ensures NotInRows(init, p)
      {
      }
    }
  }

  // ---------------------------------------------------------------------------
  // What checkout promises

  lemma JoinOrderJoinable(db: Db, user: UserId, lines: seq<CartId>)
    requires JoinOrder(db, user, lines)
    ensures Joinable(db, lines)
    ensures lines == [] <==> JoinedIds(db, user) == {}
  {
    if lines != [] {
      assert lines[0] in JoinedIds(db, user);
    }
  }

  /**
   * The outcome is decided by the join alone, before anything is written:
   * EmptyCart exactly when the join is empty, InsufficientStock exactly when
   * some joined line asks for more than its product's stock, Placed otherwise;
   * the two refusals leave every table as it was.
   */
  lemma CheckoutOutcomes(db: Db, user: UserId, createdAt: string, lines: seq<CartId>)
    requires JoinOrder(db, user, lines)
    ensures var r := Checkout(db, user, createdAt, lines);
      && (r.outcome == EmptyCart <==> JoinedIds(db, user) == {})
      && (r.outcome == InsufficientStock <==>
            exists id :: id in JoinedIds(db, user) && db.cart[id].qty > db.products[db.cart[id].product].stock)
      && (r.outcome.Placed? <==>
            JoinedIds(db, user) != {} &&
            forall id :: id in JoinedIds(db, user) ==> db.cart[id].qty <= db.products[db.cart[id].product].stock)
      && (!r.outcome.Placed? ==> r.db == db)
  {
    JoinOrderJoinable(db, user, lines);
    var rows := RowsOf(db, lines);
    if exists id :: id in JoinedIds(db, user) && db.cart[id].qty > db.products[db.cart[id].product].stock {
      var id :| id in JoinedIds(db, user) && db.cart[id].qty > db.products[db.cart[id].product].stock;
      var k :| 0 <= k < |lines| && lines[k] == id;
      assert !(rows[k].qty <= rows[k].stock);
    }
  }

  /** Checkout by the shape of the query's rows. */
  lemma CheckoutCases(db: Db, user: UserId, createdAt: string, lines: seq<CartId>)
    requires JoinOrder(db, user, lines)
    ensures Joinable(db, lines)
    ensures var rows := RowsOf(db, lines);
      Checkout(db, user, createdAt, lines) ==
        if rows == [] then Step(EmptyCart, db)
        else if !AllInStock(rows) then Step(InsufficientStock, db)
        else Step(Placed(db.nextOrderId), PlaceOrder(db, user, createdAt, rows))
  {
    JoinOrderJoinable(db, user, lines);
  }

  /** A placed checkout's tables are PlaceOrder applied to the query's rows. */
  lemma CheckoutPlacedIs(db: Db, user: UserId, createdAt: string, lines: seq<CartId>)
    requires JoinOrder(db, user, lines)
    requires Checkout(db, user, createdAt, lines).outcome.Placed?
    ensures Joinable(db, lines) && AllInStock(RowsOf(db, lines))
    ensures Checkout(db, user, createdAt, lines)
            == Step(Placed(db.nextOrderId), PlaceOrder(db, user, createdAt, RowsOf(db, lines)))
  {
    JoinOrderJoinable(db, user, lines);
  }

  /**
   * The writes of a validated checkout: the one new order, one order line per
   * row under consecutive fresh ids copying the row's product, quantity and
   * price, products changed in stock only, the user's cart lines deleted.
   */
  lemma PlaceOrderFacts(db: Db, user: UserId, createdAt: string, rows: seq<Row>)
    requires forall id :: id in db.orderItems ==> id < db.nextOrderItemId
    ensures var r := PlaceOrder(db, user, createdAt, rows);
      var first := db.nextOrderItemId;
      && r.orders == db.orders[db.nextOrderId := Order(user, createdAt, PlacedStatus)]
      && r.nextOrderId == db.nextOrderId + 1
      && r.nextProductId == db.nextProductId && r.nextCartId == db.nextCartId
      && r.nextOrderItemId == first + |rows|
      && (forall id :: id in r.orderItems <==> id in db.orderItems || first <= id < first + |rows|)
      && (forall id :: id in db.orderItems ==> r.orderItems[id] == db.orderItems[id])
      && (forall k :: 0 <= k < |rows| ==> r.orderItems[first + k] == LineItem(db.nextOrderId, rows[k]))
      && r.products.Keys == db.products.Keys
      && (forall p :: p in db.products ==> r.products[p] == db.products[p].(stock := r.products[p].stock))
      && r.cart == CartWithout(db.cart, user)
  {
    InsertLinesItems(OrderRow(db, user, createdAt), db.nextOrderId, rows);
  }

  /**
   * A placed checkout creates exactly one order, under the next order id, for
   * the user with status "Placed", and one order line per joined cart line,
   * under consecutive fresh ids, copying the line's quantity and the product's
   * current price; earlier orders and order lines are kept, and the new order
   * has no other lines.
   */
  lemma CheckoutPlacesOrder(db: Db, user: UserId, createdAt: string, lines: seq<CartId>)
    requires WellFormed(db) && JoinOrder(db, user, lines)
    requires Checkout(db, user, createdAt, lines).outcome.Placed?
    ensures var r := Checkout(db, user, createdAt, lines);
      var order := db.nextOrderId;
      var first := db.nextOrderItemId;
      && r.outcome == Placed(order)
      && order !in db.orders
      && r.db.orders == db.orders[order := Order(user, createdAt, "Placed")]
      && r.db.nextOrderItemId == first + |lines|
      && (forall id :: id in r.db.orderItems <==> id in db.orderItems || first <= id < first + |lines|)
      && (forall id :: id in db.orderItems ==> r.db.orderItems[id] == db.orderItems[id])
      && (forall k :: 0 <= k < |lines| ==>
            var c := db.cart[lines[k]];
            r.db.orderItems[first + k] == OrderItem(order, c.product, c.qty, db.products[c.product].price))
      && (forall id :: id in r.db.orderItems && r.db.orderItems[id].order == order ==> first <= id < first + |lines|)
  {
    CheckoutPlacedIs(db, user, createdAt, lines);
    PlaceOrderFacts(db, user, createdAt, RowsOf(db, lines));
  }

  /** The user's joined lines name distinct products (the UNIQUE(user_id, product_id) constraint at work). */
  lemma JoinedRowsDistinct(db: Db, user: UserId, lines: seq<CartId>)
    requires WellFormed(db) && JoinOrder(db, user, lines)
    ensures Joinable(db, lines) && DistinctProducts(RowsOf(db, lines))
  {
    JoinOrderJoinable(db, user, lines);
    var rows := RowsOf(db, lines);
    forall i, j | 0 <= i < j < |rows|
      ensures rows[i].product != rows[j].product
    {
      assert lines[i] in JoinedIds(db, user) && lines[j] in JoinedIds(db, user);
      assert lines[i] != lines[j];
    }
  }

  /** PlaceOrder's stock effect on rows with distinct products. */
  lemma PlaceOrderStock(db: Db, user: UserId, createdAt: string, rows: seq<Row>)
    requires DistinctProducts(rows)
    ensures var r := PlaceOrder(db, user, createdAt, rows);
      && r.products.Keys == db.products.Keys
      && (forall k :: 0 <= k < |rows| && rows[k].product in db.products ==>
            r.products[rows[k].product].stock == db.products[rows[k].product].stock - rows[k].qty)
      && (forall p :: p in db.products && NotInRows(rows, p) ==> r.products[p] == db.products[p])
  {
    InsertLinesStock(OrderRow(db, user, createdAt), db.nextOrderId, rows);
  }

  /**
   * After a placed checkout each product of a joined line has its old stock
   * minus that line's quantity, which is not negative; every other product is
   * unchanged, and no product is added, removed, renamed or repriced.
   */
  lemma CheckoutStock(db: Db, user: UserId, createdAt: string, lines: seq<CartId>)
    requires WellFormed(db) && JoinOrder(db, user, lines)
    requires Checkout(db, user, createdAt, lines).outcome.Placed?
    ensures var r := Checkout(db, user, createdAt, lines);
      && r.db.products.Keys == db.products.Keys
      && (forall id :: id in JoinedIds(db, user) ==>
            var p := db.cart[id].product;
            r.db.products[p].stock == db.products[p].stock - db.cart[id].qty >= 0)
      && (forall p :: p in db.products && (forall id :: id in JoinedIds(db, user) ==> db.cart[id].product != p) ==>
            r.db.products[p] == db.products[p])
      && (forall p :: p in db.products ==>
            r.db.products[p] == db.products[p].(stock := r.db.products[p].stock))
  {
    CheckoutPlacedIs(db, user, createdAt, lines);
    JoinedRowsDistinct(db, user, lines);
    var rows := RowsOf(db, lines);
    var after := PlaceOrder(db, user, createdAt, rows);
    PlaceOrderFacts(db, user, createdAt, rows);
    PlaceOrderStock(db, user, createdAt, rows);
    forall id | id in JoinedIds(db, user)
      ensures after.products[db.cart[id].product].stock == db.products[db.cart[id].product].stock - db.cart[id].qty >= 0
    {
      var k :| 0 <= k < |lines| && lines[k] == id;
      assert rows[k] == RowOf(db, id);
    }
    forall p | p in db.products && (forall id :: id in JoinedIds(db, user) ==> db.cart[id].product != p)
      ensures after.products[p] == db.products[p]
    {
      forall k | 0 <= k < |rows| ensures rows[k].product != p {
        assert lines[k] in JoinedIds(db, user);
      }
    }
  }

  /**
   * A placed checkout deletes every cart line of the user, including lines
   * whose product no longer exists, and keeps every line of other users; the
   * user's cart count is then 0.
   */
  lemma CheckoutClearsCart(db: Db, user: UserId, createdAt: string, lines: seq<CartId>)
    requires WellFormed(db) && JoinOrder(db, user, lines)
    requires Checkout(db, user, createdAt, lines).outcome.Placed?
    ensures var r := Checkout(db, user, createdAt, lines);
      && (forall id :: id in r.db.cart <==> id in db.cart && db.cart[id].user != user)
      && (forall id :: id in r.db.cart ==> r.db.cart[id] == db.cart[id])
      && CartCount(r.db.cart, user) == 0
  {
    CheckoutPlacedIs(db, user, createdAt, lines);
    PlaceOrderFacts(db, user, createdAt, RowsOf(db, lines));
    var cart' := Checkout(db, user, createdAt, lines).db.cart;
    CartCountZero(cart', user, cart'.Keys);
  }

  /** Checkout keeps the tables well formed, whatever its outcome. */
  lemma CheckoutWellFormed(db: Db, user: UserId, createdAt: string, lines: seq<CartId>)
    requires WellFormed(db) && JoinOrder(db, user, lines)
    ensures WellFormed(Checkout(db, user, createdAt, lines).db)
  {
    CheckoutOutcomes(db, user, createdAt, lines);
    if Checkout(db, user, createdAt, lines).outcome.Placed? {
      CheckoutPlacedIs(db, user, createdAt, lines);
      var rows := RowsOf(db, lines);
      var r := PlaceOrder(db, user, createdAt, rows);
      PlaceOrderFacts(db, user, createdAt, rows);
      assert forall id :: id in r.orderItems ==> r.orderItems[id].order in r.orders by {
        forall id | id in r.orderItems ensures r.orderItems[id].order in r.orders {
          if id in db.orderItems {
            assert r.orderItems[id].order in db.orders;
          } else {
            var k := id - db.nextOrderItemId;
            assert r.orderItems[db.nextOrderItemId + k] == LineItem(db.nextOrderId, rows[k]);
          }
        }
      }
    }
  }

  // ---------------------------------------------------------------------------
  // Quantities are carried over

  /** The quantities of the order lines with ids first .. first + n - 1. */
  ghost function RangeQty(items: map<OrderItemId, OrderItem>, first: nat, n: nat): int
  {
    if n == 0 then 0
    else RangeQty(items, first, n - 1) + (if first + n - 1 in items then items[first + n - 1].qty else 0)
  }

  ghost function RowsQty(rows: seq<Row>): int
  {
    if rows == [] then 0 else RowsQty(rows[..|rows| - 1]) + rows[|rows| - 1].qty
  }

  lemma {:induction false} RangeQtyOfRows(items: map<OrderItemId, OrderItem>, first: nat, order: OrderId, rows: seq<Row>)
    requires forall id :: first <= id < first + |rows| ==> id in items && items[id] == LineItem(order, rows[id - first])
    ensures RangeQty(items, first, |rows|) == RowsQty(rows)
  {
    if rows != [] {
      RangeQtyOfRows(items, first, order, rows[..|rows| - 1]);
    }
  }

  lemma {:induction false} RowsQtyOfJoin(db: Db, user: UserId, lines: seq<CartId>, s: set<CartId>)
    requires Enumerates(lines, s)
    requires forall id :: id in s ==> id in db.cart && db.cart[id].user == user && db.cart[id].product in db.products
    ensures Joinable(db, lines)
    ensures RowsQty(RowsOf(db, lines)) == QtyOf(db.cart, user, s)
  {
    if lines == [] {
      assert s == {};
    } else {
      var init := lines[..|lines| - 1];
      var last := lines[|lines| - 1];
      assert Enumerates(init, s - {last}) by {
        forall x | x in s - {last} ensures x in init {
          assert x in lines;
          var k :| 0 <= k < |lines| && lines[k] == x;
          assert k < |lines| - 1;
          assert init[k] == x;
        }
      }
      RowsQtyOfJoin(db, user, init, s - {last});
      QtyOfRemove(db.cart, user, s, last);
      assert RowsOf(db, lines)[..|lines| - 1] == RowsOf(db, init);
    }
  }

  /**
   * The lines of a placed order carry, in total, exactly the quantity of the
   * user's joined cart lines.
   */
  lemma CheckoutConservesQty(db: Db, user: UserId, createdAt: string, lines: seq<CartId>)
    requires WellFormed(db) && JoinOrder(db, user, lines)
    requires Checkout(db, user, createdAt, lines).outcome.Placed?
    ensures RangeQty(Checkout(db, user, createdAt, lines).db.orderItems, db.nextOrderItemId, |lines|)
            == QtyOf(db.cart, user, JoinedIds(db, user))
  {
    CheckoutPlacedIs(db, user, createdAt, lines);
    var rows := RowsOf(db, lines);
    PlaceOrderFacts(db, user, createdAt, rows);
    var items, first := PlaceOrder(db, user, createdAt, rows).orderItems, db.nextOrderItemId;
    forall id | first <= id < first + |rows|
      ensures id in items && items[id] == LineItem(db.nextOrderId, rows[id - first])
    {
      assert items[first + (id - first)] == LineItem(db.nextOrderId, rows[id - first]);
    }
    RangeQtyOfRows(items, first, db.nextOrderId, rows);
    RowsQtyOfJoin(db, user, lines, JoinedIds(db, user));
  }
}
