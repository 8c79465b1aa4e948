/**
 * The cart handlers of the storefront as functions on the tables:
 * add a unit of a product, set a line's quantity, remove a line.
 * Each function is the specification the matching Store method is proved
 * against; the lemmas state what the handlers promise.
 */
module Cart {
  import opened Tables

  datatype AddOutcome = ProductNotFound | OutOfStock | Added

  datatype UpdateOutcome = InvalidCartItem | CartUpdated

  /** add_to_cart: refuse a missing or sold-out product, else bump or insert the (user, product) line. */
  ghost function AddToCart(db: Db, user: UserId, product: ProductId): Step<AddOutcome>
  {
    if product !in db.products then Step(ProductNotFound, db)
    else if db.products[product].stock <= 0 then Step(OutOfStock, db)
    else match FindLine(db.cart, user, product)
      case Some(id) =>
        Step(Added, db.(cart := db.cart[id := db.cart[id].(qty := db.cart[id].qty + 1)]))
      case None =>
        Step(Added, db.(cart := db.cart[db.nextCartId := CartItem(user, product, 1)],
                        nextCartId := db.nextCartId + 1))
  }

  /** The quantity a cart_update form asks for: missing means 1, anything below 1 becomes 1. */
  function ClampQty(field: Option<int>): (q: int)
    ensures q >= 1
    ensures field.Some? && field.value >= 1 ==> q == field.value
    ensures field.None? || field.value < 1 ==> q == 1
  {
    var q := if field.Some? then field.value else 1;
    if q < 1 then 1 else q
  }

  /** cart_update: set the quantity of a line the user owns; anything else is an invalid item. */
  ghost function UpdateQty(db: Db, user: UserId, id: CartId, field: Option<int>): Step<UpdateOutcome>
  {
    var qty := ClampQty(field);
    if id !in db.cart || db.cart[id].user != user then Step(InvalidCartItem, db)
    else Step(CartUpdated, db.(cart := db.cart[id := db.cart[id].(qty := qty)]))
  }

  /** cart_remove: delete the line only when both its id and its owner match. */
  ghost function Remove(db: Db, user: UserId, id: CartId): Db
  {
    if id in db.cart && db.cart[id].user == user then db.(cart := db.cart - {id}) else db
  }

  /** Tables other than cart_items, and the cart_items id counter, are left as they are. */
  ghost predicate OnlyCartChanged(db: Db, db': Db)
  {
    db'.products == db.products && db'.orders == db.orders && db'.orderItems == db.orderItems
    && db'.nextProductId == db.nextProductId && db'.nextOrderId == db.nextOrderId
    && db'.nextOrderItemId == db.nextOrderItemId
  }

  /**
   * add_to_cart refuses a missing product and a product with stock <= 0 and
   * then changes nothing; otherwise it adds exactly one unit to the user's
   * line for the product, and every other (user, product) quantity stays.
   */
  lemma AddToCartEffect(db: Db, user: UserId, product: ProductId)
    requires WellFormed(db)
    ensures var r := AddToCart(db, user, product);
      && WellFormed(r.db)
      && OnlyCartChanged(db, r.db)
      && (r.outcome == ProductNotFound <==> product !in db.products)
      && (r.outcome == OutOfStock <==> product in db.products && db.products[product].stock <= 0)
      && (r.outcome != Added ==> r.db == db)
      && (r.outcome == Added ==>
            && LineQty(r.db.cart, user, product) == LineQty(db.cart, user, product) + 1
            && forall u: UserId, p: ProductId :: (u, p) != (user, product) ==> LineQty(r.db.cart, u, p) == LineQty(db.cart, u, p))
  {
    var r := AddToCart(db, user, product);
    if r.outcome == Added {
      match FindLine(db.cart, user, product)
      case Some(id) =>
        assert WellFormed(r.db);
        FindLineUnique(r.db.cart, user, product, id);
        forall u: UserId, p: ProductId | (u, p) != (user, product)
          ensures LineQty(r.db.cart, u, p) == LineQty(db.cart, u, p)
        {
          SameLinesSameQty(db.cart, r.db.cart, u, p);
        }
      case None =>
        var newId := db.nextCartId;
        FindLineUnique(r.db.cart, user, product, newId);
        forall u: UserId, p: ProductId | (u, p) != (user, product)
          ensures LineQty(r.db.cart, u, p) == LineQty(db.cart, u, p)
        {
          SameLinesSameQty(db.cart, r.db.cart, u, p);
        }
    }
  }

  /** Two carts that agree on every line for (u, p) agree on its quantity. */
  lemma SameLinesSameQty(cart: map<CartId, CartItem>, cart': map<CartId, CartItem>, u: UserId, p: ProductId)
    requires UniqueLines(cart) && UniqueLines(cart')
    requires forall id :: id in cart' && IsLineFor(cart'[id], u, p) ==> id in cart && cart[id] == cart'[id]
    requires forall id :: id in cart && IsLineFor(cart[id], u, p) ==> id in cart' && cart'[id] == cart[id]
    ensures LineQty(cart', u, p) == LineQty(cart, u, p)
  {
    match FindLine(cart, u, p)
    case Some(id) => FindLineUnique(cart', u, p, id);
    case None =>
  }

  /**
   * cart_update clamps the quantity to at least 1, refuses a missing row or a
   * row of another user without changing anything, and otherwise changes only
   * that row's quantity.
   */
  lemma UpdateQtyEffect(db: Db, user: UserId, id: CartId, field: Option<int>)
    requires WellFormed(db)
    ensures var r := UpdateQty(db, user, id, field);
      && WellFormed(r.db)
      && OnlyCartChanged(db, r.db)
      && r.db.nextCartId == db.nextCartId
      && (r.outcome == CartUpdated <==> id in db.cart && db.cart[id].user == user)
      && (r.outcome == InvalidCartItem ==> r.db == db)
      && (r.outcome == CartUpdated ==>
            && r.db.cart.Keys == db.cart.Keys
            && r.db.cart[id] == CartItem(user, db.cart[id].product, ClampQty(field))
            && forall other :: other in db.cart && other != id ==> r.db.cart[other] == db.cart[other])
  {
  }

  /**
   * cart_remove deletes the row exactly when it exists and belongs to the
   * caller; every other row is kept as it was.
   */
  lemma RemoveEffect(db: Db, user: UserId, id: CartId)
    requires WellFormed(db)
    ensures var db' := Remove(db, user, id);
      && WellFormed(db')
      && OnlyCartChanged(db, db')
      && db'.nextCartId == db.nextCartId
      && (id in db.cart && db.cart[id].user == user ==> db'.cart.Keys == db.cart.Keys - {id})
      && (id !in db.cart || db.cart[id].user != user ==> db' == db)
      && forall other :: other in db.cart && other != id ==> other in db'.cart && db'.cart[other] == db.cart[other]
  {
  }

  /** A second identical cart_remove is a no-op. */
  lemma RemoveIdempotent(db: Db, user: UserId, id: CartId)
    ensures Remove(Remove(db, user, id), user, id) == Remove(db, user, id)
  {
  }
}
