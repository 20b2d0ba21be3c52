# Opta ERP back end: a verified model of the sales, catalogue and user handlers

This project models the HTTP handlers of the Opta ERP back end, a FastAPI
service over a SQLAlchemy database. The service keeps users, product
categories, products, one inventory row per product, sales and sale items.
The model covers these parts:

- **Sales** (`sales_api.dfy`). Creating a sale writes the sale header, then
  walks the line items. For each item it checks that the product exists and
  that its inventory row holds enough stock. An accepted item gets a
  sale-item row, and its stock is decremented in place. When the quantity
  falls to zero or below, the row is marked out of stock; below 5 it is
  marked low stock. If an item fails, the header is deleted and the handler
  answers 404 (missing product) or 400 (not enough stock). The model takes
  that delete to be committed together with the earlier items' writes, which
  holds only under some database and session setups (see "Findings"). The
  module also
  models the sale listing (a date window, newest first, then OFFSET/LIMIT)
  and the single-sale read.
- **Catalogue** (`inventory_api.dfy`). Category create, list, read, partial
  update and delete. Product create, which also seeds an inventory row with
  quantity 0, out of stock. The product listing, with its category and
  search filters and the stock attached to each product. Product read,
  partial update (the category check comes before the setattr loop) and
  delete (the inventory row goes first). The visible part of the inventory
  update.
- **Users** (`auth_api.dfy`). The login error branch and the token claims.
  Registration, which rejects an email already in use. The user listing.
  The partial user update, which replaces the plaintext password with its
  hash.
- **Request schemas** (`schemas.dfy`). Their defaults and their field
  constraints. The handlers take the constraints as preconditions, because
  the request validator enforces them before a handler runs.

The database is the class `Store.Session`, declared in `store.dfy`:

- each table is a `map` from primary key to row, and the sale items form a
  `seq`;
- each table has its own next-id counter;
- the inventory table is keyed by product id, because every handler finds
  an inventory row by `product_id`;
- `Session.Valid()` holds the key, id and counter invariants that every
  handler preserves.

Handlers that write are methods with field-precise `modifies` clauses.
Handlers that only read are functions with `reads db`. The one exception
is the product listing, `InventoryApi.ReadProducts`: it is a method, because
the handler builds its result in a loop.

A partial update is the `setattr` loop over `dict(exclude_unset=True)`. It is
modelled as a fold, `Common.ApplyAll`, over the supplied fields. Lemmas prove
that this fold equals an independent field-by-field merge
(`MergeCategory`, `MergeProduct`, `MergeUser`).

The item loop of sale creation is specified by `SalesApi.Run`, a fold of
`SalesApi.Step` over the items. `SellItems` is the imperative loop, proved
equal to `Run`. The lemmas about `Run` state what the handler promises:

- a sale succeeds exactly when every item is admitted against the stock
  still left;
- the rows written are one per item;
- each stock row drops by the total quantity asked of it and never goes
  negative;
- the status follows the threshold rule.

Parameters stand in for things outside the model:

- the clock (`now`, the sale's `created_at`, in seconds);
- the password hash (`hash`);
- the credential check (`Login` receives its outcome);
- the database's case-insensitive pattern match (`ilike`).

## Model

| member | source | states |
|---|---|---|
| SalesApi.CreateSale | opta-erp/backend/app/api/sales.py:22-78 | Writes the header under the next sale id with the caller's id, the request's customer fields, total and payment method. The inventory, the sale-item table and its counter end as the item loop `Run` leaves them. On success it returns the header with exactly the rows written, and `GetSale` then returns the same value. On failure it returns the loop's error and the header is gone. |
| SalesApi.SellItems | opta-erp/backend/app/api/sales.py:42-72 | The imperative item loop leaves the inventory, the sale-item table and the next item id exactly as `Run` over all the items does, and reports `Run`'s failure. |
| SalesApi.SellItem | opta-erp/backend/app/api/sales.py:43-72 | One pass of the loop reports the error `Step` gives. A failing item changes nothing. An accepted one leaves the inventory and the counter as `Step` does and appends exactly its one row. |
| SalesApi.TakeItem | opta-erp/backend/app/api/sales.py:57-72 | An accepted item appends its row with the next item id, the sale id and the item's product, quantity and prices. Its product's inventory row loses the quantity and takes the threshold status. |
| SalesApi.AddSale | opta-erp/backend/app/api/sales.py:37-39 | The header is stored under a fresh id, and the sale counter advances by one. |
| SalesApi.DropSale | opta-erp/backend/app/api/sales.py:46-47 | Deleting the header removes that sale and nothing else. |
| SalesApi.NewSale | opta-erp/backend/app/api/sales.py:29-36 | The header carries the caller's id, the customer name, email and phone, the total and the payment method from the request, and the server's timestamp. |
| SalesApi.Step | opta-erp/backend/app/api/sales.py:44-72 | Once an item has failed, later steps change nothing. An item that fails a check records its error and leaves the inventory, the rows and the counter as they were. |
| SalesApi.Run | opta-erp/backend/app/api/sales.py:42-72 | A loop run that starts after a failure leaves the state as it was: the `raise` ends the loop. |
| SalesApi.Decrement | opta-erp/backend/app/api/sales.py:68-72 | An accepted item's inventory row loses exactly the item's quantity and takes the threshold status, keeping its product and location. Every other row is unchanged, and no row is added or removed. |
| SalesApi.StatusAfterSale | opta-erp/backend/app/api/sales.py:69-72 | Below 5 the status is the two-sided threshold status: out of stock at or below zero, low stock otherwise. At 5 or more the old status stays. |
| SalesApi.RunStopsAtFailure | opta-erp/backend/app/api/sales.py:45-55 | Once an item has failed, the items after it change nothing. |
| SalesApi.RunFailsAtOneItem | opta-erp/backend/app/api/sales.py:44-55 | A failed loop failed at one item k: every item before k passed, and the final state, error included, is the one that item k's check produces. By `Step`, a missing product gives ProductIdNotFound with its id, and otherwise a missing row or too little stock gives InsufficientInventory with the product's name. |
| SalesApi.RunPrefixSucceeds | opta-erp/backend/app/api/sales.py:42-55 | If the whole loop succeeds, every prefix of it succeeds. |
| SalesApi.RunSucceedsIff | opta-erp/backend/app/api/sales.py:44-55 | The loop succeeds if and only if every item i names a stored product that has an inventory row, and that row's starting quantity covers the total asked of the product by items 0..i. |
| SalesApi.RunSucceedsIffStock | opta-erp/backend/app/api/sales.py:51-52 | With positive quantities, the loop succeeds if and only if every item names a stored product with an inventory row whose starting quantity covers the whole sale's total for that product. |
| SalesApi.RunRows | opta-erp/backend/app/api/sales.py:57-65 | A successful loop writes exactly one row per item, in item order, with consecutive ids from the next item id. |
| SalesApi.RunCountsRows | opta-erp/backend/app/api/sales.py:57-65 | Even when the loop fails, the item counter advances by exactly the number of rows written. |
| SalesApi.RunInventory | opta-erp/backend/app/api/sales.py:68 | After a successful loop, every inventory row holds its starting quantity minus the total quantity the sale asks of that product. |
| SalesApi.RunStatus | opta-erp/backend/app/api/sales.py:69-72 | With positive quantities, after a successful loop, a row the sale touched has the threshold status of its final quantity over its starting status. A row the sale did not touch is unchanged. |
| SalesApi.RunKeepsInventoryKeys | opta-erp/backend/app/api/sales.py:51-68 | The loop creates and deletes no inventory row. |
| SalesApi.RunNeverNegative | opta-erp/backend/app/api/sales.py:52-68 | If no stock was negative before the sale, none is negative after it, whether the sale succeeds or fails. |
| SalesApi.StatusRuleIsOneSided | opta-erp/backend/app/api/sales.py:69-72 | The status rule has no else branch. It agrees with a two-sided rule exactly when the quantity is below 5 or the row was already in stock. At 5 or more the old status stays. |
| SalesApi.StatusAfterSaleTwice | opta-erp/backend/app/api/sales.py:69-72 | Two decrements of the same row, the second to the lower quantity, decide the status as one decrement does. |
| SalesApi.AbortKeepsEarlierItems | opta-erp/backend/app/api/sales.py:46-55 | As written: for an accepted item followed by an item with a missing product, the loop fails with ProductIdNotFound. Yet the first item's row stays written and its stock stays decremented. |
| SalesApi.CreateSaleAtomic | opta-erp/backend/app/api/sales.py:42-74 | Corrected: a sale either commits the header, every item row and every decrement, or, on any item error, leaves the sales, the inventory and the sale-item table as they were. The sale counter advances by one, and the item counter ends where the loop left it. |
| SalesApi.RollBack | opta-erp/backend/app/api/sales.py:46-55 | Restores the inventory and the sale-item table to earlier contents and keeps the store valid. |
| SalesApi.ItemsOfOwn | opta-erp/backend/app/api/sales.py:76-78 | Rows that all belong to one sale are exactly that sale's items. |
| SalesApi.ItemsOf | opta-erp/backend/app/api/sales.py:76-77 | The loaded items are rows of the sale-item table carrying the sale's id, and every such row is among them. |
| SalesApi.NewRowsAreTheSale | opta-erp/backend/app/api/sales.py:76-78 | After a successful loop, the refetched sale's items are exactly the rows the loop wrote. |
| SalesApi.InWindow | opta-erp/backend/app/api/sales.py:92-97 | The `>= start` and `< end + 1 day` filters keep exactly the sales made on a day from the start day to the end day, both ends included. |
| SalesApi.FilterWindow | opta-erp/backend/app/api/sales.py:91-97 | The filtered rows are stored rows inside the window, and every stored row inside the window is kept. |
| SalesApi.SortNewest | opta-erp/backend/app/api/sales.py:99 | The ordering is a permutation of its input. |
| SalesApi.SortNewestOrdered | opta-erp/backend/app/api/sales.py:99 | The ordering is newest first. |
| SalesApi.SalesPageSound | opta-erp/backend/app/api/sales.py:89-100 | A listing page has at most `limit` headers, is newest first, and holds only stored sales inside the window. |
| SalesApi.SalesPageComplete | opta-erp/backend/app/api/sales.py:89-100 | A first page at least as long as the table holds every stored sale inside the window. |
| SalesApi.GetSales | opta-erp/backend/app/api/sales.py:80-100 | The listing returns at most `limit` stored sales inside the window, newest first, each with exactly its own items. A first page large enough lists every sale in the window. |
| SalesApi.GetSale | opta-erp/backend/app/api/sales.py:102-111 | A stored sale is returned with exactly its items; a missing one gives SaleNotFound. |
| InventoryApi.CreateCategory | opta-erp/backend/app/api/inventory.py:28-34 | Stores the category under a fresh id with the request's fields and advances the counter. Reading it back returns it. |
| InventoryApi.ReadCategories | opta-erp/backend/app/api/inventory.py:36-39 | At most `limit` stored categories. A first page at least as long as the table holds every category. |
| InventoryApi.ReadCategory | opta-erp/backend/app/api/inventory.py:41-46 | Succeeds exactly for a stored id and returns that row; otherwise CategoryNotFound. |
| InventoryApi.MergeCategory | opta-erp/backend/app/schemas/user.py:66-68 | Each field of the updated category is the supplied value or the current one; the id never changes. |
| InventoryApi.CategoryUpdateIsMerge | opta-erp/backend/app/api/inventory.py:54-56 | The setattr loop over the supplied fields gives the field-by-field merge. |
| InventoryApi.UpdateCategory | opta-erp/backend/app/api/inventory.py:48-60 | A missing id gives CategoryNotFound and changes nothing. Otherwise the stored row becomes the merge, it is returned, and reading it back returns it. |
| InventoryApi.DeleteCategory | opta-erp/backend/app/api/inventory.py:62-70 | A missing id gives CategoryNotFound. Otherwise exactly that category is removed. Either way a read then reports it not found. |
| InventoryApi.NewProduct | opta-erp/backend/app/api/inventory.py:80 | The new product takes the table's id and copies all nine request fields, so a valid request gives it two positive prices. |
| InventoryApi.CreateProduct | opta-erp/backend/app/api/inventory.py:73-90 | An unknown category gives CategoryNotFound and changes nothing. Otherwise the product is stored under a fresh id with an inventory row of quantity 0, out of stock, and reading it back reports that stock. |
| InventoryApi.CategoryFilter | opta-erp/backend/app/api/inventory.py:103-104 | No category id, or id 0 (falsy), keeps every product. Any other id keeps exactly the products of that category. |
| InventoryApi.SearchFilter | opta-erp/backend/app/api/inventory.py:106-112 | No search term, or an empty one, keeps every product. A product whose name matches is kept. A product with no model number and no description is kept exactly when its name matches. |
| InventoryApi.FilterProducts | opta-erp/backend/app/api/inventory.py:103-112 | Keeps exactly the rows that pass the category filter (only for a non-zero id) and the search filter (only for a non-empty term, on name, model number or description). |
| InventoryApi.WithStock | opta-erp/backend/app/api/inventory.py:120-126 | A product with an inventory row reports the row's quantity and status. One without a row reports 0, out of stock. |
| InventoryApi.AttachStock | opta-erp/backend/app/api/inventory.py:116-128 | The loop pairs every product of the page, in order, with its stock. |
| InventoryApi.ReadProducts | opta-erp/backend/app/api/inventory.py:92-130 | Returns the filtered page with the stock of each product, as `ProductListing` defines it. |
| InventoryApi.ProductListingSound | opta-erp/backend/app/api/inventory.py:92-130 | A listing has at most `limit` entries. Each is a stored product under its own id that passes the filters, with that product's stock. |
| InventoryApi.ProductListingComplete | opta-erp/backend/app/api/inventory.py:92-130 | A first page at least as long as the table lists every stored product that passes the filters, with its stock. |
| InventoryApi.ReadProduct | opta-erp/backend/app/api/inventory.py:132-151 | Succeeds exactly for a stored id and returns the product with its stock; otherwise ProductNotFound. |
| InventoryApi.MergeProduct | opta-erp/backend/app/schemas/user.py:96-105 | Each field of the updated product is the supplied value or the current one; the id never changes. |
| InventoryApi.ProductUpdateIsMerge | opta-erp/backend/app/api/inventory.py:159-168 | The setattr loop over the supplied fields gives the field-by-field merge. |
| InventoryApi.MergeKeepsPricesPositive | opta-erp/backend/app/schemas/user.py:102-103 | A valid update keeps both prices of a product positive. |
| InventoryApi.UpdateProduct | opta-erp/backend/app/api/inventory.py:153-172 | A missing product gives ProductNotFound. A supplied category id that is not stored gives CategoryNotFound. Neither changes anything. Otherwise the stored product becomes the merge and is returned. |
| InventoryApi.DeleteProduct | opta-erp/backend/app/api/inventory.py:174-185 | A missing id gives ProductNotFound. Otherwise the product and its inventory row are removed and nothing else is. Afterwards no product and no inventory row has that id. |
| InventoryApi.InventoryRowToUpdate | opta-erp/backend/app/api/inventory.py:188-203 | A missing product gives ProductNotFound. Otherwise the result is the product's inventory row, or a new row with the column defaults (quantity 0, in stock). |
| AuthApi.Login | opta-erp/backend/app/api/auth.py:18-31 | Rejected credentials give IncorrectCredentials with status 401. Accepted ones give claims whose subject is the user's email and whose role is the user's role. |
| AuthApi.NewUser | opta-erp/backend/app/api/auth.py:39-45 | The stored user has the request's email, full name and role, the hash of the password, and is active by the column default. |
| AuthApi.EmailInUse | opta-erp/backend/app/api/auth.py:35-36 | Holds exactly when some stored user already has the email. This is the condition on which registration is rejected. |
| AuthApi.RegisterUser | opta-erp/backend/app/api/auth.py:33-49 | An email already in use gives EmailAlreadyRegistered (status 400) and changes nothing. Otherwise the new user is stored under a fresh id. Unique emails stay unique. |
| AuthApi.ReadUsers | opta-erp/backend/app/api/auth.py:55-58 | At most `limit` stored users. A first page at least as long as the table holds every user. |
| AuthApi.UserAssignments | opta-erp/backend/app/api/auth.py:67-71 | The assignments never include the plaintext password. The hash of the new password is included exactly when a password was supplied. Every other entry is a supplied field. |
| AuthApi.MergeUser | opta-erp/backend/app/schemas/user.py:21-26 | Each field of the updated user is the supplied value or the current one; the stored hash changes to the new password's hash exactly when a password is supplied. |
| AuthApi.UserUpdateIsMerge | opta-erp/backend/app/api/auth.py:67-74 | The setattr loop over the assignments gives the field-by-field merge. |
| AuthApi.SuppliedUserUpdate | opta-erp/backend/app/api/auth.py:73-74 | Assigning the supplied fields as they arrive changes the email, name, role and active flag as supplied. It leaves the stored hash alone. |
| AuthApi.UpdateUser | opta-erp/backend/app/api/auth.py:60-78 | A missing user gives UserNotFound and changes nothing. Otherwise the stored user becomes the merge and is returned. |
| Schemas.UserUpdateData | opta-erp/backend/app/schemas/user.py:21-26 | Every entry of the update dictionary is a field the client supplied, and a supplied password is among them. |
| Schemas.CategoryUpdateData | opta-erp/backend/app/schemas/user.py:66-68 | The dictionary holds exactly the supplied fields, one entry each. |
| Schemas.ProductUpdateDataSupplied | opta-erp/backend/app/schemas/user.py:96-105 | Every entry of the update dictionary is a supplied field, and the supplied category id, name and prices are among them. |
| Schemas.ValidUserCreate | opta-erp/backend/app/schemas/user.py:19 | A user-create request is valid exactly when its password has at least 8 characters. |
| Schemas.ValidProductCreate | opta-erp/backend/app/schemas/user.py:88-89 | A product-create request is valid exactly when both prices are positive. |
| Schemas.ValidProductUpdate | opta-erp/backend/app/schemas/user.py:102-103 | A product update is valid exactly when each price it supplies is positive. An unset price is not checked. |
| Schemas.ValidSaleItem | opta-erp/backend/app/schemas/user.py:166-168 | A sale item is valid exactly when its quantity, unit price and total price are all positive. |
| Schemas.ValidSaleCreate | opta-erp/backend/app/schemas/user.py:188 | A sale is valid exactly when its total is positive and every item is valid. Nothing compares the total with the items' totals. |
| Schemas.RequestDefaults | opta-erp/backend/app/schemas/user.py:12-16 | A user request defaults to staff and active, an inventory request to quantity 0 and in stock, and a sale to cash. |
| SalesApi.ValidSaleOutcome | opta-erp/backend/app/api/sales.py:42-72 | For a sale that passed the request validator (positive quantities), the loop succeeds exactly when each product's starting stock covers the sale's whole demand for it. After a success, every row holds its start minus that demand, never negative; a touched row has the threshold status of its new quantity, and an untouched row is unchanged. |
| Common.Paginate | opta-erp/backend/app/api/inventory.py:114 | OFFSET/LIMIT returns the rows from `skip` on, at most `limit` of them, in order. |
| Common.RowsCover | opta-erp/backend/app/api/inventory.py:38 | A table scan lists every stored row exactly once and nothing else. |

## Left out

- The database session is not modelled: commits, refreshes, connection
  errors and concurrent requests. Every handler is modelled as one atomic
  step on the store, except the item loop of sale creation, whose partial
  writes are the point of the finding below.
- Authentication and authorisation are not modelled. That covers the
  `get_current_active_user` and `get_superadmin_user` dependencies,
  `read_users_me`, JWT encoding, token expiry and bcrypt.
  - The password hash is a parameter `hash`.
  - The credential check is the `Option<User>` that `Login` receives.
  - Token creation is reduced to its claims.
- The clock is a parameter. `created_at` is an integer count of seconds, and
  a date filter is a day number; zones and calendars are not modelled.
- The case-insensitive `ilike` match of the database is a parameter, and
  the `%` wildcards and collation are not modelled.
- Prices and amounts are `real`. They are only stored and copied, never
  computed with, so floating point plays no part.
- `skip` and `limit` are `nat`. The negative values FastAPI would pass to
  the database are not modelled.
- Rows without an `ORDER BY` are listed in ascending id order. The database
  promises no order there.
- Constraints enforced only by the database are not modelled:
  - the unique user email, category name and product barcode; an update
    that would break one of them would fail, and the model lets it succeed;
  - the foreign keys; deleting a category that products still name, or a
    sale that sale items still name, succeeds in the model.
- Sending an explicit `null` for a non-null column in an update is not
  modelled (a field is either unset or set to a value of its type).
- `EmailStr` validation is not modelled; an email is any string.
- The model holds at most one inventory row per product, keyed by product
  id, and drops the row's own surrogate id. This is a simplification, because
  the table allows several rows per product. With several rows, the product
  listing outer-joins every one of them and so lists the product once per
  row. The product read, the inventory update and sale creation use the
  `.first()` row, and product deletion deletes all of them.
- Sale ids are never reused in the model, because `nextSaleId` only grows,
  as a database sequence does. So the sale-item rows an aborted sale leaves
  behind, which keep its id, never show up under a later sale. On SQLite,
  which hands out the largest remaining id plus one, a new sale can take the
  id of a sale just deleted. It would then list those rows as its own.
- SalesApi.CreateSale: models the failure path under one database setup:
  no autoflush, and foreign keys not enforced (SQLite's defaults). There,
  the header delete commits together with the earlier items' rows and
  decrements. With autoflush on, or with enforced foreign keys, the commit
  after the delete fails instead. `SaleItem.sale_id` is NOT NULL and
  `Sale.items` has no delete cascade (`models/user.py`, lines 112 and 118).
  The handler then answers 500, the item writes are rolled back, and the
  header committed before the loop stays behind. The model does not capture
  that outcome. It is not all-or-nothing either.
- SalesApi.Step: `sales.py` uses `StockStatus` without importing it
  (line 9 imports only `Product` and `InventoryItem`). At run time, a
  decrement to below 5 would therefore raise a name error instead of
  setting the status. The model assumes the intended enumeration.
- InventoryApi.InventoryRowToUpdate: the inventory update handler ends at
  line 203 of `inventory.py`, after creating the missing row. The rest of
  that handler is not part of this model.
- AuthApi.UserAssignments: states that the plaintext is never
  assigned, but not that the hash differs from the plaintext, which only
  bcrypt guarantees.
- The status rule is the code's one-sided rule: a quantity of 5 or more
  keeps the old status. A design that resets such a row to in stock is
  stated only as `SalesApi.DerivedStatus`, and `StatusRuleIsOneSided`
  relates the two.
- The response schemas' `from_orm` copying and the timestamps `updated_at`
  and `last_updated` are not modelled.

## Findings

| source | as written | input that shows it | evidently intended | confidence | as-written member | corrected member |
|---|---|---|---|---|---|---|
| opta-erp/backend/app/api/sales.py:46-47,53-54 | An item that fails deletes only the sale header and commits; nothing rolls back the earlier items. Without autoflush and foreign-key enforcement (SQLite's defaults), their sale-item rows and stock decrements are committed with the delete. Otherwise that commit fails on the NOT NULL `sale_id` of the flushed rows (`models/user.py`, lines 112 and 118): the handler answers 500, and the header committed at line 38 stays behind. | Product 1 with 10 in stock; product 2 does not exist; items [(product 1, qty 3), (product 2, qty 1)]. Under SQLite's defaults the handler answers 404, yet product 1 now holds 7 and a sale-item row of quantity 3 names the deleted sale. With autoflush or enforced foreign keys it answers 500, and a sale header with no items remains. | A failed sale leaves the sales, the inventory and the sale items as they were (a rollback instead of a delete-and-commit). | not executed; the outcome depends on the session and database setup, which is not part of this model | SalesApi.AbortKeepsEarlierItems | SalesApi.CreateSaleAtomic |
