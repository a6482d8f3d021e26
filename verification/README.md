# Sweet shop orders and cart, in Dafny

This project models two parts of the sweet shop:

- The backend order routes of `backend/src/routes/orders.js`:
  - the `POST /orders` checkout transaction;
  - the `GET /orders` listing;
  - `GET /orders/:id`;
  - the `GET /orders/stats/all` statistics.
- The client-side cart of `frontend/src/cart.jsx`: `addItem`, `setQty`, `removeItem`, `clear` and `subtotal`.

The database is a value `Schema.Db`. It holds:

- the `sweets` catalog, keyed by id;
- the `orders` rows in insertion order;
- the `order_items` rows, as `OrderLine`, in insertion order.

Money and stock are integers.

The checkout exists in two forms:

- `OrderCheckout.Checkout` is the specification. It treats the transaction as one atomic step: either commit, or roll back to the untouched store.
- `OrderCheckout.Store.PlaceOrder` is the handler written imperatively, over a `Store` object, with the handler's three loops. They are the snapshot read, the validation and the write loop. It is proved to produce exactly what `Checkout` describes.

The proved properties of `Checkout` cover:

- the error cases and the HTTP status they are answered with;
- rollback;
- the committed order and lines;
- stock arithmetic;
- conservation of stock plus units sold;
- preservation of the store's consistency invariant. Each order's total equals the sum of price times qty over its own lines.

The read handlers are pure functions over `Db`. They are proved to:

- sort newest first, as a permutation;
- enforce the owner and admin access rules;
- return exactly an order's own lines;
- report, in a consistent store, revenue equal to the value of all order lines.

The cart is a `CartProvider` class whose methods replace `items` by pure functions of the old list. Lemmas state:

- the cap and merge behaviour of `addItem`;
- the `max(1, q)` rule of `setQty`;
- the order-preserving filter of `removeItem`;
- how the subtotal moves.

The model follows the code as written. In particular:

- Request quantities are not validated. A zero or negative `qty` passes validation and is written as is.
- An unknown sweet is answered 500. The message is "Sweet not found: …", which does not start with "Insufficient".
- All lines are validated against one snapshot read before any write. A request that repeats an id can therefore overdraw the stock (`OrderCheckout.DuplicateIdsOverdraw`).
- The insufficient-stock message names only the sweet id.
- `setQty` does not clamp to the stock cap. Only `addItem` does.

## Model

| member | source | states |
|---|---|---|
| Schema.LinesOf | backend/src/routes/orders.js:99 | a line is among an order's lines exactly when it is stored with that order's id; there are never more of them than stored lines |
| Schema.LinesOfAppend | backend/src/routes/orders.js:99 | selecting an order's lines distributes over concatenation, so they come in insertion order with their multiplicity |
| Schema.LinesOfUniform | backend/src/routes/orders.js:99 | lines that all carry one order id are all selected for that order, in order, and none for any other order |
| Schema.LinesForSweet | backend/src/routes/orders.js:127-130 | a line is in a sweet's group exactly when it is stored with that sweet's id; there are never more of them than stored lines |
| Schema.LinesForSweetAppend | backend/src/routes/orders.js:127-130 | grouping by sweet distributes over concatenation, so the lines written later extend the group |
| Schema.AppendOrderConsistent | backend/src/routes/orders.js:37-53 | appending an order with a fresh id, together with lines that all carry its id and whose value equals its total, keeps every order's total equal to the value of its own lines |
| OrderCheckout.StatusClassification | backend/src/routes/orders.js:63-64 | a failed checkout is answered 400 exactly when the error is not an unknown sweet, and 500 exactly when it is |
| OrderCheckout.Status | backend/src/routes/orders.js:13-64 | every failed checkout is answered 400 or 500, and an empty item list 400 |
| OrderCheckout.StoredAddress | backend/src/routes/orders.js:39 | the stored address is NULL exactly when the address is absent or empty; a non-empty one is stored unchanged |
| OrderCheckout.Snapshot | backend/src/routes/orders.js:22-24 | every row in the snapshot is the stored row of an existing sweet |
| OrderCheckout.Validate | backend/src/routes/orders.js:27-33 | a validation failure is an unknown sweet whose id was not read, or insufficient stock for a sweet that was read |
| OrderCheckout.Captured | backend/src/routes/orders.js:43-48 | the write loop inserts exactly one order line per request line |
| OrderCheckout.Decremented | backend/src/routes/orders.js:49-52 | the stock updates keep the catalog's set of sweets |
| OrderCheckout.Checkout | backend/src/routes/orders.js:9-68 | a failed checkout returns the store unchanged; a committed one returns an order with the new id and the caller, appends it to the orders, keeps the catalog's sweets and writes one line per request line |
| OrderCheckout.ValidateSpec | backend/src/routes/orders.js:27-33 | validation succeeds exactly when every line's sweet was read and its read stock covers the qty; on failure the error is that of the first failing line |
| OrderCheckout.ValidateFailureSticks | backend/src/routes/orders.js:28-31 | once a prefix of the request fails, the whole validation fails with that same error |
| OrderCheckout.ValidateTotal | backend/src/routes/orders.js:32 | the validated total equals the sum of price * qty over the lines the order will hold |
| OrderCheckout.SnapshotOfRequest | backend/src/routes/orders.js:22-24 | a requested id is in the snapshot exactly when the sweet exists, and then with its stored row |
| OrderCheckout.CapturedAt | backend/src/routes/orders.js:43-48 | one order line per request line, in request order, with the new order id, the snapshot price and the requested qty |
| OrderCheckout.DecrementedAt | backend/src/routes/orders.js:49-52 | the catalog keeps the same sweets, and each stock drops by the total qty requested for that sweet over all lines |
| OrderCheckout.QtyForDistinct | backend/src/routes/orders.js:49-52 | with distinct ids, a sweet's total requested qty is 0 or the qty of the one line naming it |
| OrderCheckout.CheckoutFailure | backend/src/routes/orders.js:13-31 | NoItems exactly for a missing or empty item list; otherwise failure exactly when some line is not ok, with the first bad line's error; every failure leaves the store unchanged, answered 400 exactly when not an unknown sweet |
| OrderCheckout.CheckoutCommits | backend/src/routes/orders.js:35-55 | a valid request commits an order and the store after it (decremented stock, the order appended, one line per request line appended), with line prices equal to the stored prices |
| OrderCheckout.CheckoutSuccess | backend/src/routes/orders.js:35-59 | a committed order has the caller, the stored address and the timestamp; the orders gain it at the end; the lines gain one per request line with the stored price and requested qty; its total is their value; each stock drops by the qty requested for it |
| OrderCheckout.CheckoutKeepsStockNonNegative | backend/src/routes/orders.js:31 | with distinct ids in the request and no negative stock before, no stock is negative after |
| OrderCheckout.DuplicateIdsOverdraw | backend/src/routes/orders.js:43-52 | stock 1 and two lines of qty 1 for the same sweet commit with total 40 and leave stock -1 |
| OrderCheckout.LadooScenario | backend/src/routes/orders.js:28-33 | stock 2 at price 20: buying 1 commits with total 20 and stock 1; then asking for 5 fails with insufficient stock, answered 400, store unchanged |
| OrderCheckout.CheckoutPreservesConsistency | backend/src/routes/orders.js:36-53 | given a fresh order id, any checkout attempt keeps ids unique, every line attached to an order, and each order's total equal to the value of its own lines |
| OrderCheckout.CapturedSold | backend/src/routes/orders.js:43-48 | the qty written into one sweet's lines equals the qty the request asked of that sweet |
| OrderCheckout.CapturedQty | backend/src/routes/orders.js:43-48 | the lines written carry, between them, exactly the total requested qty |
| OrderCheckout.CapturedSweetValue | backend/src/routes/orders.js:43-48 | the lines written for one sweet are worth its read price times the qty requested of it |
| OrderCheckout.SnapshotPriceOfRequested | backend/src/routes/orders.js:22-31 | after a passing validation, the requested qty of a sweet priced at the read price or at the catalog price gives the same amount |
| OrderCheckout.QtyForAbsent | backend/src/routes/orders.js:49-52 | a sweet that no request line names has its stock decremented by 0 |
| OrderCheckout.CheckoutConservesStock | backend/src/routes/orders.js:43-53 | for every sweet, stock on hand plus the qty recorded in its order lines is the same before and after any checkout attempt |
| OrderCheckout.ReadSnapshot | backend/src/routes/orders.js:20-24 | the snapshot holds exactly the requested ids that exist in the catalog, each with its stored row |
| OrderCheckout.ValidateLines | backend/src/routes/orders.js:27-33 | the validation loop returns what the validation specification gives, stopping at the first failing line |
| OrderCheckout.Store.constructor | backend/src/init_db.js:16-41 | a store starts with the given catalog and no orders or lines |
| OrderCheckout.Store.WriteLines | backend/src/routes/orders.js:42-53 | the write loop leaves the stock decremented per line and the lines extended with one row per request line; orders untouched |
| OrderCheckout.Store.PlaceOrder | backend/src/routes/orders.js:9-68 | the handler's result and the store after it equal the atomic checkout specification applied to the store before |
| OrderQueries.InsertByDate | backend/src/routes/orders.js:76 | inserting into a newest-first list keeps it newest first and adds exactly that order |
| OrderQueries.SortNewestFirst | backend/src/routes/orders.js:81 | the result is ordered by created_at descending and is a permutation of the input |
| OrderQueries.OwnedBy | backend/src/routes/orders.js:76 | exactly the orders whose owner is the caller, each as many times as it is stored (once for a row) and no other; an order without an owner matches nobody |
| OrderQueries.ListOrders | backend/src/routes/orders.js:72-83 | mine=true gives the caller's own orders newest first; otherwise Forbidden exactly for a non-admin, and for an admin all orders newest first |
| OrderQueries.FindOrder | backend/src/routes/orders.js:94-96 | None exactly when no order has the id; otherwise an order with that id |
| OrderQueries.Enrich | backend/src/routes/orders.js:99 | each line is returned with its sweet's current name, or none when the sweet row is missing |
| OrderQueries.GetOrder | backend/src/routes/orders.js:91-101 | NotFound exactly for an unknown id; Forbidden only for a non-admin who does not own the order; success gives the owner or an admin exactly the order's own lines, in order |
| OrderQueries.GetOrderAccess | backend/src/routes/orders.js:94-100 | with unique ids, the owner and every admin get the order with its lines, anyone else Forbidden; in a consistent store the total equals the value of those lines |
| OrderQueries.Revenue | backend/src/routes/orders.js:114-115 | the sum of the order totals is 0 without orders and never negative when no total is |
| OrderQueries.ComputeStats | backend/src/routes/orders.js:110-123 | Forbidden exactly for a non-admin; otherwise the revenue as the sum of order totals, the order count, and the total qty over all lines |
| OrderQueries.SalesOf | backend/src/routes/orders.js:126-130 | a sweet that no line names has sold nothing and earned nothing; how a checkout moves its figures is `OrderLifecycle.CheckoutMovesSales` |
| OrderQueries.RevenueByOrder | backend/src/routes/orders.js:114-115 | when every total matches its own lines, the revenue equals the per-order sum of line values |
| OrderQueries.PerOrderSnoc | backend/src/routes/orders.js:114-115 | one more line adds its value to the single order it names, if that order exists |
| OrderQueries.PerOrderIsLines | backend/src/routes/orders.js:114-115 | with unique ids and every line attached to an order, the per-order sum equals the value of all lines |
| OrderQueries.StatsRevenueMatchesLines | backend/src/routes/orders.js:114-123 | in a consistent store the reported revenue equals the value of all order lines |
| OrderLifecycle.CheckoutMovesStats | backend/src/routes/orders.js:110-123 | a committed checkout adds its total to the revenue, one to the order count and the requested qty to the units sold; a failed one changes none |
| OrderLifecycle.CheckoutMovesSales | backend/src/routes/orders.js:126-130 | in a sweet's top-sellers group, a committed checkout adds the qty requested of the sweet to its units sold, and that qty times its catalog price to its revenue; a failed one changes neither |
| OrderLifecycle.LastUnitSoldOnce | backend/src/routes/orders.js:22-31 | with one unit in stock, two single-unit checkouts in sequence: the first commits, the second fails with insufficient stock, and the stock ends at 0 |
| CartStore.StockCap | frontend/src/cart.jsx:33 | a missing or zero stock quantity is no cap; any other quantity is a finite cap of that size |
| CartStore.MinCap | frontend/src/cart.jsx:33 | the capped qty is at most the asked qty and at most a finite cap, and is one of the two |
| CartStore.IndexOf | frontend/src/cart.jsx:30 | the first entry with the id, or -1 exactly when no entry has it |
| CartStore.NewEntry | frontend/src/cart.jsx:36 | a new entry copies the sweet's id, name, price and image (empty when it has none), records its stock cap, and holds qty min(qty, cap) |
| CartStore.Added | frontend/src/cart.jsx:28-38 | adding grows the cart by at most one entry, and afterwards the sweet is in the cart |
| CartStore.AddedSpec | frontend/src/cart.jsx:28-38 | an existing sweet's entry alone gets qty min(old + qty, cap); a new sweet is appended with qty min(qty, cap) and its cap; ids stay distinct |
| CartStore.AddedRespectsCap | frontend/src/cart.jsx:33-36 | with a finite cap, the added sweet's entry never holds more than the cap |
| CartStore.WithQty | frontend/src/cart.jsx:40-42 | setting a qty keeps the length and every position's id, and any entry it changes holds a qty of at least 1 |
| CartStore.WithQtySpec | frontend/src/cart.jsx:40-42 | positions and ids are kept; entries with the id get exactly max(1, q); every other entry is unchanged; distinct ids stay distinct |
| CartStore.Removed | frontend/src/cart.jsx:44-46 | removing never grows the cart and leaves no entry with that id |
| CartStore.RemovedMembers | frontend/src/cart.jsx:44-46 | removing keeps exactly the entries with a different id |
| CartStore.RemovedAppend | frontend/src/cart.jsx:45 | removal distributes over concatenation, so the survivors keep their order |
| CartStore.RemovedAbsent | frontend/src/cart.jsx:45 | removing an id no entry has leaves the cart unchanged |
| CartStore.RemovedDistinct | frontend/src/cart.jsx:45 | removal keeps ids distinct |
| CartStore.Subtotal | frontend/src/cart.jsx:52 | the subtotal is never negative when no price or qty is |
| CartStore.SubtotalAppend | frontend/src/cart.jsx:52 | the subtotal of a concatenation is the sum of the subtotals |
| CartStore.SubtotalRemoved | frontend/src/cart.jsx:52 | removing the one entry with an id takes exactly its price * qty off the subtotal |
| CartStore.SubtotalAddedNew | frontend/src/cart.jsx:36 | adding a new sweet adds its price times min(qty, cap) to the subtotal |
| CartStore.CartProvider.constructor | frontend/src/cart.jsx:9 | the cart starts empty |
| CartStore.CartProvider.AddItem | frontend/src/cart.jsx:28-38 | items becomes the added list and ids stay distinct |
| CartStore.CartProvider.SetQty | frontend/src/cart.jsx:40-42 | items becomes the list with the qty set and ids stay distinct |
| CartStore.CartProvider.RemoveItem | frontend/src/cart.jsx:44-46 | items becomes the filtered list and ids stay distinct |
| CartStore.CartProvider.Clear | frontend/src/cart.jsx:48-50 | items becomes empty and the subtotal 0 |

## Left out

- Row locking with `FOR UPDATE`, concurrent requests and the connection pool are left out. Transactions are modelled as running one after another.
- Database or driver failures in the middle of the transaction (a failed INSERT or UPDATE, a lost connection) are left out. The only rollbacks modelled are the handler's own errors.
- The re-read of the committed order after COMMIT is left out. The model returns the order row it inserted.
- `uuidv4()` and `now()` are left out. They become the parameters `orderId` and `now`. Where a lemma needs a fresh order id it requires one, and a primary-key collision is not modelled.
- JavaScript number coercion is left out: `Number(...)` on NUMERIC columns, string qty values, NaN and floating-point rounding. Money and quantities are unbounded integers.
- A request body whose `items` is not an array is left out. It is represented as an absent item list and answered like an empty one.
- OrderCheckout.CheckoutFailure: an id that names a property of `Object.prototype` is not reported as an unknown sweet. Examples are `"toString"`, `"constructor"` and `"__proto__"`. The lookup `sweetsById[it.id]` (backend/src/routes/orders.js:29) finds the inherited property, which is truthy. Its `quantity` is undefined, so the stock test is false and the line passes validation. A later line can then decide the error: for `[{id:"toString",qty:1},{id:"ladoo",qty:5}]` against two ladoos the handler answers "Insufficient stock for ladoo" with 400, where the model gives `SweetNotFound("toString")` with 500. Alone, such a line fails at the order-line INSERT (no price), which is a 500 with the database's message. The store is unchanged either way. The model treats such an id like any other id missing from the catalog.
- Authentication (JWT verification and the 401 answers) is left out. The caller arrives as a `Principal`.
- Any 500 answer from a failing query in the read handlers is left out.
- OrderQueries.GetOrder returns the lines in insertion order. The query has no ORDER BY, so the database may return them in another order.
- OrderQueries.SalesOf gives one sweet's group of the top-sellers query. The `ORDER BY sold_qty DESC LIMIT 6` ranking and its tie-breaking are not modelled.
- The last-14-days daily revenue series of the statistics is left out, because it depends on the clock and on date truncation.
- OrderQueries.SortNewestFirst leaves the order of rows with equal `created_at` unspecified, as the SQL does.
- Loading and persisting the cart in `localStorage` is left out. So is the unused `findIndex` helper of `cart.jsx`.
- CartStore.CartProvider.AddItem replaces the merged entry by a new value. The source writes `qty` into the entry object it shares with the previous state, and that aliasing is not modelled. Because `copy[i]` is the same object as `prev[i]`, an updater that React runs twice (as `React.StrictMode`, frontend/src/main.jsx:10, does in development) adds `qty` to an existing entry twice; the model adds it once.
- CartStore.Subtotal treats a missing price as 0, but every entry has an integer qty. The `it.qty || 0` fallback for a missing qty in stored data is not modelled.
- The single-sweet purchase endpoint `POST /api/sweets/:id/purchase` is left out. Its route file, `backend/src/routes/sweets.js`, is not part of this model.
- The pages and components that call these operations are left out.
