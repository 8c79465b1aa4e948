/**
 * The administrator's handlers: product add, edit and delete, and the order
 * status overwrite. Each starts with the admin check; a caller without the
 * admin flag is turned away and nothing changes.
 */
module Admin {
  import opened Tables
  import Orders

  datatype AdminOutcome =
    | AccessDenied
    | ProductNotFound
    | ProductAdded
    | ProductUpdated
    | ProductDeleted
    | StatusUpdated

  /** admin_add_product: insert a product under the next product id. */
  ghost function AddProduct(db: Db, isAdmin: bool, name: string, description: string, price: Price, stock: int)
    : Step<AdminOutcome>
  {
    if !isAdmin then Step(AccessDenied, db)
    else Step(ProductAdded, db.(products := db.products[db.nextProductId := Product(name, description, price, stock)],
                                nextProductId := db.nextProductId + 1))
  }

  /** admin_edit_product (the form submission): overwrite every column of an existing product. */
  ghost function EditProduct(db: Db, isAdmin: bool, id: ProductId, name: string, description: string, price: Price, stock: int)
    : Step<AdminOutcome>
  {
    if !isAdmin then Step(AccessDenied, db)
    else if id !in db.products then Step(ProductNotFound, db)
    else Step(ProductUpdated, db.(products := db.products[id := Product(name, description, price, stock)]))
  }

  /** admin_delete_product: delete the product row, whatever still refers to it. */
  ghost function DeleteProduct(db: Db, isAdmin: bool, id: ProductId): Step<AdminOutcome>
  {
    if !isAdmin then Step(AccessDenied, db)
    else Step(ProductDeleted, db.(products := db.products - {id}))
  }

  /** The status an admin_update_order_status form sets: a missing field means "Placed". */
  function StatusField(field: Option<string>): string
  {
    match field
    case Some(s) => s
    case None => Orders.PlacedStatus
  }

  /** admin_update_order_status: overwrite the status of the order with that id, if there is one. */
  ghost function SetOrderStatus(db: Db, isAdmin: bool, id: OrderId, field: Option<string>): Step<AdminOutcome>
  {
    if !isAdmin then Step(AccessDenied, db)
    else if id in db.orders then Step(StatusUpdated, db.(orders := db.orders[id := db.orders[id].(status := StatusField(field))]))
    else Step(StatusUpdated, db)
  }

  /** Only the products table and its id counter may differ. */
  ghost predicate OnlyProductsChanged(db: Db, db': Db)
  {
    db'.cart == db.cart && db'.orders == db.orders && db'.orderItems == db.orderItems
    && db'.nextCartId == db.nextCartId && db'.nextOrderId == db.nextOrderId
    && db'.nextOrderItemId == db.nextOrderItemId
  }

  /**
   * Adding a product needs the admin flag; it creates one product with the
   * submitted columns under a fresh id and keeps every other row.
   */
  lemma AddProductEffect(db: Db, isAdmin: bool, name: string, description: string, price: Price, stock: int)
    requires WellFormed(db)
    ensures var r := AddProduct(db, isAdmin, name, description, price, stock);
      && WellFormed(r.db)
      && OnlyProductsChanged(db, r.db)
      && (!isAdmin ==> r.outcome == AccessDenied && r.db == db)
      && (isAdmin ==>
            && r.outcome == ProductAdded
            && db.nextProductId !in db.products
            && r.db.products.Keys == db.products.Keys + {db.nextProductId}
            && r.db.products[db.nextProductId] == Product(name, description, price, stock)
            && forall p :: p in db.products ==> r.db.products[p] == db.products[p])
  {
  }

  /**
   * Editing a product needs the admin flag and an existing product; it
   * replaces that product's columns and nothing else: no other product, no
   * cart line, no order and no order line changes.
   */
  lemma EditProductEffect(db: Db, isAdmin: bool, id: ProductId, name: string, description: string, price: Price, stock: int)
    requires WellFormed(db)
    ensures var r := EditProduct(db, isAdmin, id, name, description, price, stock);
      && WellFormed(r.db)
      && OnlyProductsChanged(db, r.db)
      && r.db.nextProductId == db.nextProductId
      && (r.outcome == AccessDenied <==> !isAdmin)
      && (r.outcome == ProductNotFound <==> isAdmin && id !in db.products)
      && (r.outcome != ProductUpdated ==> r.db == db)
      && (r.outcome == ProductUpdated ==>
            && r.db.products.Keys == db.products.Keys
            && r.db.products[id] == Product(name, description, price, stock)
            && forall p :: p in db.products && p != id ==> r.db.products[p] == db.products[p])
  {
  }

  /**
   * Deleting a product needs the admin flag; it removes only that product.
   * Cart lines naming it stay in cart_items but drop out of every user's
   * checkout join.
   */
  lemma DeleteProductEffect(db: Db, isAdmin: bool, id: ProductId)
    requires WellFormed(db)
    ensures var r := DeleteProduct(db, isAdmin, id);
      && WellFormed(r.db)
      && OnlyProductsChanged(db, r.db)
      && r.db.nextProductId == db.nextProductId
      && (!isAdmin ==> r.outcome == AccessDenied && r.db == db)
      && (isAdmin ==>
            && r.outcome == ProductDeleted
            && r.db.products.Keys == db.products.Keys - {id}
            && (forall p :: p in r.db.products ==> r.db.products[p] == db.products[p])
            && forall u: UserId :: JoinedIds(r.db, u) == JoinedIds(db, u) - (set c | c in db.cart && db.cart[c].product == id))
  {
  }

  /**
   * Setting an order status needs the admin flag; it overwrites the status of
   * the targeted order (with "Placed" when the field is missing), keeps its
   * user and timestamp, and changes no other order and no other table. An id
   * with no order changes nothing, though the same outcome is reported.
   */
  lemma SetOrderStatusEffect(db: Db, isAdmin: bool, id: OrderId, field: Option<string>)
    requires WellFormed(db)
    ensures var r := SetOrderStatus(db, isAdmin, id, field);
      && WellFormed(r.db)
      && r.db.products == db.products && r.db.cart == db.cart && r.db.orderItems == db.orderItems
      && r.db.nextProductId == db.nextProductId && r.db.nextCartId == db.nextCartId
      && r.db.nextOrderId == db.nextOrderId && r.db.nextOrderItemId == db.nextOrderItemId
      && (r.outcome == AccessDenied <==> !isAdmin)
      && (!isAdmin || id !in db.orders ==> r.db == db)
      && (isAdmin && id in db.orders ==>
            && r.db.orders.Keys == db.orders.Keys
            && r.db.orders[id] == Order(db.orders[id].user, db.orders[id].createdAt,
                                        if field.Some? then field.value else "Placed")
            && forall o :: o in db.orders && o != id ==> r.db.orders[o] == db.orders[o])
  {
  }

  /**
   * A new product takes an id no cart line names yet: ids are never reused,
   * so adding a product never lets an existing cart line (one whose product
   * was deleted, in particular) join a checkout again.
   */
  lemma AddProductKeepsJoins(db: Db, isAdmin: bool, name: string, description: string, price: Price, stock: int)
    requires WellFormed(db)
    ensures var r := AddProduct(db, isAdmin, name, description, price, stock);
      forall u: UserId :: JoinedIds(r.db, u) == JoinedIds(db, u)
  {
  }

  /**
   * Once a product is deleted, its cart lines stay out of every checkout,
   * even after the admin adds another product.
   */
  lemma DeletedProductStaysOut(db: Db, id: ProductId, name: string, description: string, price: Price, stock: int)
    requires WellFormed(db)
    ensures var deleted := DeleteProduct(db, true, id).db;
      var added := AddProduct(deleted, true, name, description, price, stock).db;
      forall u: UserId, c :: c in JoinedIds(added, u) ==> added.cart[c].product != id
  {
    DeleteProductEffect(db, true, id);
    var deleted := DeleteProduct(db, true, id).db;
    AddProductKeepsJoins(deleted, true, name, description, price, stock);
  }

  /**
   * Order lines keep the price they were placed at: after a placed checkout,
   * a later edit of any product (its price included) leaves every line of the
   * new order with the price the product had at checkout.
   */
  lemma PriceSnapshotSurvivesEdit(db: Db, user: UserId, createdAt: string, lines: seq<CartId>,
                                  id: ProductId, name: string, description: string, price: Price, stock: int)
    requires WellFormed(db) && Orders.JoinOrder(db, user, lines)
    requires Orders.Checkout(db, user, createdAt, lines).outcome.Placed?
    ensures var placed := Orders.Checkout(db, user, createdAt, lines).db;
      var edited := EditProduct(placed, true, id, name, description, price, stock).db;
      forall k :: 0 <= k < |lines| ==>
        && db.nextOrderItemId + k in edited.orderItems
        && edited.orderItems[db.nextOrderItemId + k].priceEach == db.products[db.cart[lines[k]].product].price
  {
    Orders.CheckoutPlacesOrder(db, user, createdAt, lines);
    Orders.CheckoutWellFormed(db, user, createdAt, lines);
    var placed := Orders.Checkout(db, user, createdAt, lines).db;
    EditProductEffect(placed, true, id, name, description, price, stock);
  }
}
