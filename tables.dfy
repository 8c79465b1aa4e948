/**
 * The storefront's four tables as an in-memory value.
 *
 * Each table is a map from its row id to the row; the `next…Id` counters stand
 * for SQLite's AUTOINCREMENT, which hands out ids strictly above every id the
 * table has ever used, starting at 1.
 */
module Tables {

  type ProductId = nat
  type CartId = nat
  type OrderId = nat
  type OrderItemId = nat
  type UserId = nat

  /** Prices are only ever copied (into order lines), never computed with. */
  type Price = real

  datatype Product = Product(name: string, description: string, price: Price, stock: int)

  datatype CartItem = CartItem(user: UserId, product: ProductId, qty: int)

  datatype Order = Order(user: UserId, createdAt: string, status: string)

  datatype OrderItem = OrderItem(order: OrderId, product: ProductId, qty: int, priceEach: Price)

  datatype Db = Db(
    products: map<ProductId, Product>,
    cart: map<CartId, CartItem>,
    orders: map<OrderId, Order>,
    orderItems: map<OrderItemId, OrderItem>,
    nextProductId: nat,
    nextCartId: nat,
    nextOrderId: nat,
    nextOrderItemId: nat)

  /** The result of one handler: the outcome it reports and the tables afterwards. */
  datatype Step<O> = Step(outcome: O, db: Db)

  datatype Option<T> = None | Some(value: T)

  /** Freshly created tables: no rows, every id sequence starting at 1. */
  function EmptyDb(): Db
  {
    Db(map[], map[], map[], map[], 1, 1, 1, 1)
  }

  /** The UNIQUE(user_id, product_id) constraint of cart_items. */
  ghost predicate UniqueLines(cart: map<CartId, CartItem>)
  {
    forall i, j :: i in cart && j in cart && cart[i].user == cart[j].user && cart[i].product == cart[j].product ==> i == j
  }

  /**
   * What every handler keeps true of the tables: ids lie below their
   * AUTOINCREMENT counters, cart quantities are at least 1, every cart line
   * names a product id that has been handed out (it may since have been
   * deleted), cart lines are unique per (user, product), and every order line
   * belongs to an order.
   */
  ghost predicate WellFormed(db: Db)
  {
    && (forall id :: id in db.products ==> id < db.nextProductId)
    && (forall id :: id in db.cart ==> id < db.nextCartId && db.cart[id].qty >= 1 && db.cart[id].product < db.nextProductId)
    && (forall id :: id in db.orders ==> id < db.nextOrderId)
    && (forall id :: id in db.orderItems ==> id < db.nextOrderItemId && db.orderItems[id].order in db.orders)
    && UniqueLines(db.cart)
  }

  lemma EmptyDbWellFormed()
    ensures WellFormed(EmptyDb())
    ensures EmptyDb().products == map[] && EmptyDb().cart == map[]
    ensures EmptyDb().orders == map[] && EmptyDb().orderItems == map[]
  {
  }

  /** True when cart line `c` belongs to `user` and names `product`. */
  predicate IsLineFor(c: CartItem, user: UserId, product: ProductId)
  {
    c.user == user && c.product == product
  }

  /** The id of the user's cart line for a product, if there is one. */
  ghost function FindLine(cart: map<CartId, CartItem>, user: UserId, product: ProductId): (r: Option<CartId>)
    ensures r.Some? ==> r.value in cart && IsLineFor(cart[r.value], user, product)
    ensures r.None? ==> forall id :: id in cart ==> !IsLineFor(cart[id], user, product)
  {
    if exists id :: id in cart && IsLineFor(cart[id], user, product) then
      var id :| id in cart && IsLineFor(cart[id], user, product);
      Some(id)
    else
      None
  }

  /** Under uniqueness, any line for (user, product) is the one FindLine reports. */
  lemma FindLineUnique(cart: map<CartId, CartItem>, user: UserId, product: ProductId, id: CartId)
    requires UniqueLines(cart)
    requires id in cart && IsLineFor(cart[id], user, product)
    ensures FindLine(cart, user, product) == Some(id)
  {
  }

  /** How many units of `product` the user has in the cart (0 when there is no line). */
  ghost function LineQty(cart: map<CartId, CartItem>, user: UserId, product: ProductId): int
  {
    match FindLine(cart, user, product)
    case Some(id) => cart[id].qty
    case None => 0
  }

  /**
   * The ids the checkout query returns for `user`: its cart lines whose
   * product still exists (cart_items INNER JOIN products).
   */
  ghost function JoinedIds(db: Db, user: UserId): set<CartId>
  {
    set id | id in db.cart && db.cart[id].user == user && db.cart[id].product in db.products
  }

  /** `lines` lists every element of `s` exactly once. */
  ghost predicate Enumerates(lines: seq<CartId>, s: set<CartId>)
  {
    && (forall k :: 0 <= k < |lines| ==> lines[k] in s)
    && (forall x :: x in s ==> x in lines)
    && (forall i, j :: 0 <= i < j < |lines| ==> lines[i] != lines[j])
  }

  /** The cart with every line of `user` deleted. */
  function CartWithout(cart: map<CartId, CartItem>, user: UserId): map<CartId, CartItem>
  {
    map id | id in cart && cart[id].user != user :: cart[id]
  }

  /** The user's quantity summed over the cart ids in `ids` (ids of other users count 0). */
  ghost function QtyOf(cart: map<CartId, CartItem>, user: UserId, ids: set<CartId>): int
    decreases ids
  {
    if ids == {} then 0
    else
      var id :| id in ids;
      Contribution(cart, user, id) + QtyOf(cart, user, ids - {id})
  }

  function Contribution(cart: map<CartId, CartItem>, user: UserId, id: CartId): int
  {
    if id in cart && cart[id].user == user then cart[id].qty else 0
  }

  /** The sum does not depend on which element QtyOf happens to take first. */
  lemma {:induction false} QtyOfRemove(cart: map<CartId, CartItem>, user: UserId, ids: set<CartId>, x: CartId)
    requires x in ids
    ensures QtyOf(cart, user, ids) == Contribution(cart, user, x) + QtyOf(cart, user, ids - {x})
    decreases ids
  {
    var y :| y in ids && QtyOf(cart, user, ids) == Contribution(cart, user, y) + QtyOf(cart, user, ids - {y});
    if y != x {
      QtyOfRemove(cart, user, ids - {y}, x);
      QtyOfRemove(cart, user, ids - {x}, y);
      assert ids - {y} - {x} == ids - {x} - {y};
    }
  }

  /** The total the cart badge shows: the user's quantities over the whole cart table. */
  ghost function CartCount(cart: map<CartId, CartItem>, user: UserId): int
  {
    QtyOf(cart, user, cart.Keys)
  }

  /** Quantities in a cart are at least 1, so the badge is 0 exactly when the user has no cart line. */
  lemma {:induction false} CartCountZero(cart: map<CartId, CartItem>, user: UserId, ids: set<CartId>)
    requires forall id :: id in cart ==> cart[id].qty >= 1
    ensures QtyOf(cart, user, ids) >= 0
    ensures QtyOf(cart, user, ids) == 0 <==> forall id :: id in ids && id in cart ==> cart[id].user != user
    decreases ids
  {
    if ids != {} {
      var id :| id in ids;
      QtyOfRemove(cart, user, ids, id);
      CartCountZero(cart, user, ids - {id});
    }
  }
}
