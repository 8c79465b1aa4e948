# Storefront cart and checkout, modelled in Dafny

This project models the order engine of a small Flask storefront (`app.py`).
Customers put products in a cart, change quantities, remove lines and check
out. An administrator edits the catalogue and overwrites order statuses. Every
handler is a short sequence of SQL statements on four tables:

- `products`: id → name, description, price, stock
- `cart_items`: id → user, product, qty, unique on (user, product)
- `orders`: id → user, created_at, status
- `order_items`: id → order, product, qty, price_each

Modules:

- `Tables` (`tables.dfy`): the rows, the tables as one value `Db`, and the
  invariant `WellFormed` every handler keeps. It says ids lie below their
  AUTOINCREMENT counters, cart quantities are at least 1, every cart line names
  a product id already handed out, cart lines are unique per (user, product),
  and every order line belongs to an order. The module
  also holds the checkout join (`JoinedIds`) and the cart-count sum (`QtyOf`).
- `Cart`, `Orders`, `Admin` (`cart.dfy`, `orders.dfy`, `admin.dfy`): each
  handler as a function from the tables to `Step(outcome, tables)`. The
  lemmas beside these functions state what the handlers promise.
- `Storefront` (`storefront.dfy`): class `Store` holds the tables as map
  fields plus one id counter per table. These counters stand for SQLite's
  AUTOINCREMENT and `lastrowid`. Each handler is a method that updates the
  fields statement by statement. Each method is proved equal, in outcome and
  new state, to its function.

Checkout is modelled as the code runs it:

1. The join query lists the user's cart lines whose product still exists
   (`LoadCart`, an inner join).
2. One loop checks every row's quantity against its stock.
3. Only then does it write: the order row, the insert loop (`InsertOrderLines`),
   and the deletion of all the user's cart lines.

The query has no ORDER BY, so the model does not fix the row order. The method
returns, as a ghost value, the order its scan produced. The specification
`Orders.Checkout` takes that order as a parameter, and every checkout lemma
holds for every possible order. Prices are only copied, so they are `real`
values with no arithmetic done on them.

The caller's identity is a parameter. Customer handlers take the logged-in
`user`. `GetCartCount` takes an optional user and returns 0 when no one is
logged in. Admin handlers take the session's `isAdmin` flag.

Three behaviours of the code the model keeps:

- An insufficient-stock checkout reports one generic outcome. It does not name
  the product.
- Updating another user's cart line, or a missing one, gives the same
  "invalid cart item" outcome.
- Nothing enforces a non-negative price or stock on admin input. An admin can
  set a negative stock.

## Model

| member | source | states |
|---|---|---|
| Tables.EmptyDbWellFormed | init_ecommerce_db.py:6-43 | freshly created tables are empty and satisfy every table invariant |
| Tables.FindLine | app.py:144-145 | the lookup of a (user, product) cart line returns a line for that pair, or none when no line matches |
| Tables.FindLineUnique | init_ecommerce_db.py:22 | under UNIQUE(user_id, product_id), any line for the pair is the one the lookup returns |
| Tables.CartCountZero | app.py:43-46 | the summed cart quantity is never negative, and it is 0 exactly when the user has no cart line |
| Storefront.Store.constructor | init_ecommerce_db.py:6-43 | a new store is well formed and holds empty tables with every id sequence starting at 1 |
| Storefront.Store.GetCartCount | app.py:38-46 | returns 0 without a login; otherwise the sum of the user's cart quantities, which is 0 exactly when the user has no line |
| Cart.ClampQty | app.py:189-191 | the quantity used is at least 1: the submitted value when it is at least 1, otherwise 1, and 1 when the field is missing |
| Cart.AddToCartEffect | app.py:130-150 | a missing or sold-out product changes nothing; otherwise the user's quantity for that product rises by exactly 1, every other (user, product) quantity stays, uniqueness is kept |
| Cart.SameLinesSameQty | init_ecommerce_db.py:22 | two unique carts that agree on the lines of a (user, product) pair report the same quantity for it |
| Storefront.Store.AddToCart | app.py:122-155 | outcome and new tables are those `Cart.AddToCart` gives; the store stays well formed |
| Cart.UpdateQtyEffect | app.py:189-203 | a missing or foreign row gives InvalidCartItem and changes nothing; otherwise only that row's quantity changes, to the clamped value |
| Storefront.Store.UpdateQty | app.py:184-207 | outcome and new tables are those `Cart.UpdateQty` gives |
| Cart.RemoveEffect | app.py:218 | the row is deleted exactly when its id and owner both match; every other row is kept |
| Cart.RemoveIdempotent | app.py:218 | a second identical cart_remove changes nothing |
| Storefront.Store.Remove | app.py:211-222 | the new tables are those `Cart.Remove` gives |
| Orders.RowsOf | app.py:237-243 | the query returns one row per listed cart id, carrying the line's product and quantity with the product's current price and stock |
| Storefront.Store.LoadCart | app.py:237-243 | the rows are exactly the user's cart lines whose product exists, each once, in the order the scan met them; there are none exactly when the user has no such line; each row carries its product's current price and stock and a quantity of at least 1 |
| Orders.JoinOrderJoinable | app.py:237-248 | every listed row joins an existing product, and the listing is empty exactly when the user has no joinable line |
| Orders.CheckoutOutcomes | app.py:245-255 | EmptyCart iff the join is empty; InsufficientStock iff a joined line exceeds its stock; Placed otherwise; the refusals change no table |
| Orders.InsertLinesItems | app.py:263-267 | the insert loop adds one order line per row under consecutive fresh ids, keeps old lines, and changes products in stock only |
| Orders.InsertLinesStock | app.py:268 | with distinct products, each row's product loses exactly that row's quantity and every other product is unchanged |
| Orders.PlaceOrderFacts | app.py:258-271 | the writes add one order with status "Placed" under the next id, one line per row copying product, quantity and price, and delete the user's cart lines |
| Orders.PlaceOrderStock | app.py:263-268 | with distinct products, the writes change each row's product stock by minus its quantity and leave other products as they were |
| Orders.CheckoutPlacesOrder | app.py:258-267 | a placed checkout adds exactly one order for the user with status "Placed", and one line per joined cart line with its quantity and the product's price at that moment; the new order has no other lines |
| Orders.JoinedRowsDistinct | init_ecommerce_db.py:22 | the UNIQUE(user_id, product_id) constraint makes the user's joined rows name distinct products |
| Orders.CheckoutStock | app.py:251-268 | after a placed checkout each affected product's stock is the old stock minus the line's quantity and at least 0; other products are unchanged; names and prices never change |
| Orders.CheckoutClearsCart | app.py:271 | a placed checkout deletes every cart line of the user, including lines whose product was deleted; other users' lines are kept; the user's cart count becomes 0 |
| Orders.CheckoutWellFormed | app.py:227-276 | checkout keeps every table invariant, whatever its outcome |
| Orders.RangeQtyOfRows | app.py:263-267 | the quantities of the inserted order lines add up to the quantities of the rows |
| Orders.RowsQtyOfJoin | app.py:237-243 | the rows of a join listing add up to the summed quantity of the joined cart lines |
| Orders.CheckoutConservesQty | app.py:263-267 | the lines of a placed order carry in total exactly the quantity of the user's joined cart lines |
| Storefront.Store.Checkout | app.py:227-276 | the returned listing is a valid join order, and outcome and new tables are those `Orders.Checkout` gives for it; the store stays well formed |
| Storefront.Store.InsertOrderLines | app.py:263-268 | the loop's effect is `Orders.InsertLines` over all rows, first row first |
| Admin.AddProductEffect | app.py:350-369 | without the admin flag nothing changes; otherwise one product with the submitted columns is created under a fresh id and nothing else changes |
| Storefront.Store.AddProduct | app.py:349-371 | outcome and new tables are those `Admin.AddProduct` gives |
| Admin.EditProductEffect | app.py:376-403 | needs the admin flag and an existing product; replaces only that product's columns; cart lines, orders and order lines are untouched |
| Storefront.Store.EditProduct | app.py:375-406 | outcome and new tables are those `Admin.EditProduct` gives |
| Admin.DeleteProductEffect | app.py:411-421 | needs the admin flag; removes only that product; cart lines naming it stay but drop out of every user's checkout join |
| Admin.AddProductKeepsJoins | app.py:362-365 | a new product takes a never-used id, so no existing cart line joins a checkout because of it |
| Admin.DeletedProductStaysOut | app.py:411-421 | after a product is deleted, none of its cart lines joins any user's checkout, even once another product is added |
| Storefront.Store.DeleteProduct | app.py:410-421 | outcome and new tables are those `Admin.DeleteProduct` gives |
| Admin.SetOrderStatusEffect | app.py:458-468 | needs the admin flag; overwrites only the target order's status ("Placed" when the field is missing); a missing order changes nothing |
| Storefront.Store.SetOrderStatus | app.py:457-471 | outcome and new tables are those `Admin.SetOrderStatus` gives |
| Admin.PriceSnapshotSurvivesEdit | app.py:396-398 | after a placed checkout, editing any product leaves every new order line with the price the product had at checkout |

## Left out

- Routing, templates, `flash` messages and redirects. Each handler's flash
  message becomes an outcome value. The rest does not change the tables.
- Session mechanics, `login_required` and `is_admin`: the caller's user id and
  admin flag are parameters. A customer handler called without a login only
  redirects and is not modelled.
- Registration, login, logout and admin login (password hashing, the
  hard-coded admin credentials, the unique-email users table). They are
  outside the order engine.
- The connection and cursor handling and SQL failures. No statement in the
  model can fail halfway, so checkout's all-or-nothing outcome is stated
  directly: the refusals change no table, and a placed checkout performs all
  of its writes.
- The timestamp from `datetime.now()`: `createdAt` is an input.
- Cart.UpdateQty, Cart.AddToCart, Admin.AddProduct and Admin.EditProduct
  assume every quantity and stock value fits in SQLite's 64-bit INTEGER. The
  model's integers are unbounded, so it does not capture the OverflowError
  raised when a value of 2^63 or more is bound (the statement fails and the
  table is unchanged), nor `qty + 1` at 2^63 - 1 turning into a REAL.
- Storefront.Store.GetCartCount: returns the unbounded sum. It does not
  capture the "integer overflow" error SQLite's SUM raises when the user's
  quantities total more than 2^63 - 1, which makes get_cart_count and every
  page that calls it fail.
- The float cart total of the cart page, and the parsing of form fields into
  numbers. Parsed values are inputs, and the model does not represent a parse
  failure.
- The read-only pages (home, cart, orders, admin product and order lists), and
  the GET requests of the product forms. They only render.
- Concurrency between simultaneous checkouts (the read-then-write race on
  stock). Each handler runs as one uninterrupted step.
- The schema, seeding and debug scripts. Only their uniqueness constraints and
  AUTOINCREMENT ids appear, as invariants. The product seeding script
  (seed_products.py:7-8) deletes every product and resets the products id
  sequence, so ids restart at 1 and dangling cart lines can join checkout
  again. `WellFormed`'s "cart lines name a product id below the counter",
  Admin.AddProductKeepsJoins and Admin.DeletedProductStaysOut hold only for a
  store that was never reseeded.
