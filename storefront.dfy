/**
 * The storefront's tables as one mutable store, and its request handlers as
 * methods that update the tables step by step, the way the handlers issue
 * their SQL statements one after another.
 *
 * Every handler method is proved against the function of the same name in
 * Cart, Orders or Admin (`Step(outcome, View()) == …(old(View()), …)`); the
 * helpers are proved against the functions they compute (GetCartCount against
 * CartCount, LoadCart against RowsOf and JoinOrder, InsertOrderLines against
 * InsertLines). What the handlers promise is proved about those functions. The caller's identity
 * comes in as a parameter: `user` for a logged-in customer, `isAdmin` for the
 * admin flag of the session.
 */
module Storefront {
  import opened Tables
  import Cart
  import Orders
  import Admin

  /**
   * Progress of the checkout scan: `lines` lists, once each, exactly the
   * joined cart ids the scan has already passed (those not `pending`).
   */
  ghost predicate Scanned(joined: set<CartId>, lines: seq<CartId>, pending: set<CartId>)
  {
    && (forall k :: 0 <= k < |lines| ==> lines[k] in joined && lines[k] !in pending)
    && (forall x :: x in joined && x !in pending ==> x in lines)
    && (forall i, j :: 0 <= i < j < |lines| ==> lines[i] != lines[j])
  }

  /** Passing one pending id keeps the scan's bookkeeping, listing the id exactly when it is joined. */
  lemma ScanStep(joined: set<CartId>, lines: seq<CartId>, pending: set<CartId>, id: CartId)
    requires Scanned(joined, lines, pending) && id in pending
    ensures Scanned(joined, if id in joined then lines + [id] else lines, pending - {id})
  {
  }

  class Store {
    var products: map<ProductId, Product>
    var cart: map<CartId, CartItem>
    var orders: map<OrderId, Order>
    var orderItems: map<OrderItemId, OrderItem>
    var nextProductId: nat
    var nextCartId: nat
    var nextOrderId: nat
    var nextOrderItemId: nat

    /** The tables as a value. */
    function View(): Db
      reads this
    {
      Db(products, cart, orders, orderItems, nextProductId, nextCartId, nextOrderId, nextOrderItemId)
    }

    ghost predicate Valid()
      reads this
    {
      WellFormed(View())
    }

    /** Freshly created, empty tables. */
    constructor ()
      ensures Valid() && View() == EmptyDb()
    {
      products, cart, orders, orderItems := map[], map[], map[], map[];
      nextProductId, nextCartId, nextOrderId, nextOrderItemId := 1, 1, 1, 1;
      EmptyDbWellFormed();
    }

    /** get_cart_count: the sum of the logged-in user's cart quantities, 0 without a login. */
    method GetCartCount(session: Option<UserId>) returns (count: int)
      requires Valid()
      ensures session.None? ==> count == 0
      ensures session.Some? ==> count == CartCount(cart, session.value)
      ensures count >= 0
      ensures count == 0 <==> session.None? || forall id :: id in cart ==> cart[id].user != session.value
    {
      if session.None? {
        return 0;
      }
      var user := session.value;
      count := 0;
      var pending := cart.Keys;
      while pending != {}
        invariant pending <= cart.Keys
        invariant count + QtyOf(cart, user, pending) == CartCount(cart, user)
        decreases pending
      {
        var id :| id in pending;
        QtyOfRemove(cart, user, pending, id);
        if cart[id].user == user {
          count := count + cart[id].qty;
        }
        pending := pending - {id};
      }
      CartCountZero(cart, user, cart.Keys);
    }

    /** add_to_cart */
    method AddToCart(user: UserId, product: ProductId) returns (outcome: Cart.AddOutcome)
      requires Valid()
      modifies this
      ensures Valid()
      ensures Step(outcome, View()) == Cart.AddToCart(old(View()), user, product)
    {
      ghost var spec := Cart.AddToCart(View(), user, product);
      Cart.AddToCartEffect(View(), user, product);
      if product !in products {
        return Cart.ProductNotFound;
      }
      if products[product].stock <= 0 {
        return Cart.OutOfStock;
      }
      if exists id :: id in cart && IsLineFor(cart[id], user, product) {
        var id :| id in cart && IsLineFor(cart[id], user, product);
        FindLineUnique(cart, user, product, id);
        cart := cart[id := cart[id].(qty := cart[id].qty + 1)];
      } else {
        cart := cart[nextCartId := CartItem(user, product, 1)];
        nextCartId := nextCartId + 1;
      }
      outcome := Cart.Added;
      assert Step(outcome, View()) == spec;
    }

    /** cart_update */
    method UpdateQty(user: UserId, id: CartId, field: Option<int>) returns (outcome: Cart.UpdateOutcome)
      requires Valid()
      modifies this
      ensures Valid()
      ensures Step(outcome, View()) == Cart.UpdateQty(old(View()), user, id, field)
    {
      var qty := Cart.ClampQty(field);
      if id !in cart || cart[id].user != user {
        return Cart.InvalidCartItem;
      }
      cart := cart[id := cart[id].(qty := qty)];
      outcome := Cart.CartUpdated;
      Cart.UpdateQtyEffect(old(View()), user, id, field);
    }

    /** cart_remove */
    method Remove(user: UserId, id: CartId)
      requires Valid()
      modifies this
      ensures Valid()
      ensures View() == Cart.Remove(old(View()), user, id)
    {
      if id in cart && cart[id].user == user {
        cart := cart - {id};
      }
      Cart.RemoveEffect(old(View()), user, id);
    }

    /**
     * The checkout query: the user's cart lines joined with their products,
     * each row carrying the line's quantity and the product's price and stock,
     * in whatever order the scan meets them.
     */
    method LoadCart(user: UserId) returns (rows: seq<Orders.Row>, ghost lines: seq<CartId>)
      requires Valid()
      ensures Orders.JoinOrder(View(), user, lines)
      ensures Orders.Joinable(View(), lines) && rows == Orders.RowsOf(View(), lines)
      ensures rows == [] <==> JoinedIds(View(), user) == {}
      ensures forall k :: 0 <= k < |rows| ==>
                && rows[k].product in products
                && rows[k].price == products[rows[k].product].price
                && rows[k].stock == products[rows[k].product].stock
                && rows[k].qty >= 1
    {
      ghost var db := View();
      ghost var joined := JoinedIds(db, user);
      rows, lines := [], [];
      var pending := cart.Keys;
      while pending != {}
        invariant pending <= cart.Keys
        invariant Scanned(joined, lines, pending)
        invariant Orders.Joinable(db, lines) && rows == Orders.RowsOf(db, lines)
        decreases pending
      {
        var id :| id in pending;
        var line := cart[id];
        ScanStep(joined, lines, pending, id);
        if line.user == user && line.product in products {
          Orders.RowsOfSnoc(db, lines, id);
          rows := rows + [Orders.Row(line.product, line.qty, products[line.product].price, products[line.product].stock)];
          lines := lines + [id];
        }
        pending := pending - {id};
      }
      Orders.JoinOrderJoinable(db, user, lines);
    }

    /**
     * checkout: run the join, check every row's stock, and only then write the
     * order, its lines and the stock decrements, and delete the user's cart.
     * `lines` is the order in which the join listed the cart ids.
     */
    method Checkout(user: UserId, createdAt: string) returns (outcome: Orders.CheckoutOutcome, ghost lines: seq<CartId>)
      requires Valid()
      modifies this
      ensures Valid()
      ensures Orders.JoinOrder(old(View()), user, lines)
      ensures Step(outcome, View()) == Orders.Checkout(old(View()), user, createdAt, lines)
    {
      ghost var db := View();
      var rows;
      rows, lines := LoadCart(user);
      Orders.CheckoutCases(db, user, createdAt, lines);

      if rows == [] {
        outcome := Orders.EmptyCart;
        return;
      }

      // Check stock for every row before writing anything.
      for i := 0 to |rows|
        invariant forall k :: 0 <= k < i ==> rows[k].qty <= rows[k].stock
      {
        if rows[i].qty > rows[i].stock {
          outcome := Orders.InsufficientStock;
          return;
        }
      }

      // Create the order.
      var order := nextOrderId;
      orders := orders[order := Order(user, createdAt, Orders.PlacedStatus)];
      nextOrderId := nextOrderId + 1;
      assert View() == Orders.OrderRow(db, user, createdAt);

      // Create the order lines and reduce stock.
      InsertOrderLines(order, rows);

      // Clear the cart.
      cart := CartWithout(cart, user);
      outcome := Orders.Placed(order);
      Orders.CheckoutWellFormed(db, user, createdAt, lines);
    }

    /** The insert loop of checkout: one order line per row, and the row's quantity taken off its product's stock. */
    method InsertOrderLines(order: OrderId, rows: seq<Orders.Row>)
      modifies this
      ensures View() == Orders.InsertLines(old(View()), order, rows)
    {
      for i := 0 to |rows|
        invariant View() == Orders.InsertLines(old(View()), order, rows[..i])
      {
        ghost var before := View();
        var r := rows[i];
        orderItems := orderItems[nextOrderItemId := Orders.LineItem(order, r)];
        nextOrderItemId := nextOrderItemId + 1;
        if r.product in products {
          products := products[r.product := products[r.product].(stock := products[r.product].stock - r.qty)];
        }
        assert View() == Orders.InsertLine(before, order, r);
        Orders.InsertLinesSnoc(old(View()), order, rows, i);
      }
      assert rows[..|rows|] == rows;
    }

    /** admin_add_product (the form submission) */
    method AddProduct(isAdmin: bool, name: string, description: string, price: Price, stock: int)
      returns (outcome: Admin.AdminOutcome)
      requires Valid()
      modifies this
      ensures Valid()
      ensures Step(outcome, View()) == Admin.AddProduct(old(View()), isAdmin, name, description, price, stock)
    {
      if !isAdmin {
        return Admin.AccessDenied;
      }
      products := products[nextProductId := Product(name, description, price, stock)];
      nextProductId := nextProductId + 1;
      outcome := Admin.ProductAdded;
      Admin.AddProductEffect(old(View()), isAdmin, name, description, price, stock);
    }

    /** admin_edit_product (the form submission) */
    method EditProduct(isAdmin: bool, id: ProductId, name: string, description: string, price: Price, stock: int)
      returns (outcome: Admin.AdminOutcome)
      requires Valid()
      modifies this
      ensures Valid()
      ensures Step(outcome, View()) == Admin.EditProduct(old(View()), isAdmin, id, name, description, price, stock)
    {
      if !isAdmin {
        return Admin.AccessDenied;
      }
      if id !in products {
        return Admin.ProductNotFound;
      }
      products := products[id := Product(name, description, price, stock)];
      outcome := Admin.ProductUpdated;
      Admin.EditProductEffect(old(View()), isAdmin, id, name, description, price, stock);
    }

    /** admin_delete_product */
    method DeleteProduct(isAdmin: bool, id: ProductId) returns (outcome: Admin.AdminOutcome)
      requires Valid()
      modifies this
      ensures Valid()
      ensures Step(outcome, View()) == Admin.DeleteProduct(old(View()), isAdmin, id)
    {
      if !isAdmin {
        return Admin.AccessDenied;
      }
      products := products - {id};
      outcome := Admin.ProductDeleted;
      Admin.DeleteProductEffect(old(View()), isAdmin, id);
    }

    /** admin_update_order_status */
    method SetOrderStatus(isAdmin: bool, id: OrderId, field: Option<string>) returns (outcome: Admin.AdminOutcome)
      requires Valid()
      modifies this
      ensures Valid()
      ensures Step(outcome, View()) == Admin.SetOrderStatus(old(View()), isAdmin, id, field)
    {
      if !isAdmin {
        return Admin.AccessDenied;
      }
      var status := Admin.StatusField(field);
      if id in orders {
        orders := orders[id := orders[id].(status := status)];
      }
      outcome := Admin.StatusUpdated;
      Admin.SetOrderStatusEffect(old(View()), isAdmin, id, field);
    }
  }
}
