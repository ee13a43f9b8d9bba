# Storefront catalog filter and cart synchronisation, in Dafny

A model of the two pieces of logic in the storefront client: the catalog
filter in `App.tsx` (category buttons and the search box) and its
add-to-cart guard, and the cart provider in `CartContext.tsx`, which keeps a
snapshot of the signed-in user's `cart_items` rows in step with the hosted
store.

Modules, by source file:

- `Supabase` (`supabase.dfy`): the `Product` and `CartItem` rows of
  `lib/supabase.ts`. Prices are integer cents. Cart row identifiers are
  natural numbers, handed out by the store from a counter.
- `Seqs` (`seqs.dfy`): `Array.prototype.filter`, the numeric `reduce` and
  the ideas used to state their properties: subsequence, sum, and "no two
  elements share a key".
- `App` (`app.dfy`): `filterProducts` as the pure function `FilterProducts`.
  It uses ASCII case folding and `includes`. The add-to-cart handler
  `handleAddToCart` is the method `Page.HandleAddToCart`. The class is called
  `Page` so that it does not share the module's name.
- `Cart` (`cart.dfy`): the store's operations on `cart_items` as pure
  functions on `seq<CartItem>`. The provider is the class `CartProvider`,
  with these fields:
  - the remote table;
  - the row-id counter;
  - the signed-in user;
  - the `cartItems` snapshot;
  - `loading`;
  - the alerts shown.

  Each method is one provider operation. Its `writeOk`/`fetchOk`
  parameters say whether the store accepts the write and the re-read that
  follows. A failed call is caught and logged, as in the source.
- `Scenarios` (`scenarios.dfy`): short client sessions against
  `CartProvider`. What each one observes is proved from the provider's
  contracts.

Properties proved:

- The filter keeps catalog order. It keeps exactly the products that pass
  the category step and the text step. It keeps each such product as often
  as the catalog lists it. It is idempotent, and it ignores the case of the
  query.
- The cart invariants are:
  - after a successful write and re-read, the snapshot equals the user's rows;
  - every write keeps quantities positive;
  - every write keeps at most one row per (user, product), as long as
    `addToCart` sees a fresh snapshot.
- `cartTotal` and `cartCount` are the sums of price × quantity and of
  quantity.

Four places where a caller's natural expectation and the code differ. The
model follows the code in each:

- One would expect a change of user never to show the previous user's
  items. In the code, the effect on `[user]` (`CartContext.tsx` lines 45-47)
  re-reads the cart. If that read fails (lines 38-39), the previous snapshot
  stays on screen. `Scenarios.SwitchUser` shows this.
- One would expect at most one row per (user, product). `addToCart` only
  looks in the local snapshot (line 56). After a write whose re-read failed,
  the next `addToCart` inserts a second row for the same product.
  `Scenarios.StaleSnapshotDuplicates` shows this. `InsertKeepsOnePerProduct`
  states the condition under which the rule holds, and
  `Scenarios.AddRepeatedly` shows it holding over any number of successful
  adds.
- One would expect cart changes to need a signed-in user. `addToCart` and
  `clearCart` check for one; `removeFromCart` and `updateQuantity` (lines
  78-109) do not. They delete or update the row by identifier, and the
  re-read then empties the snapshot.
- `addToCart` shows "Failed to add item to cart" only when its own insert
  fails. On the increment path, `updateQuantity` swallows its own errors, so
  no alert is shown. A failed re-read after an insert is not alerted either.

The embed `product:products(*)` follows the foreign key from
`cart_items.product_id` to `products`. An insert for a product that is not
in the catalog breaks that key, so the store rejects it. `AddedToCart`
treats this as a failed insert: nothing is written and the
"Failed to add item to cart" alert is shown.

The constructor of `CartProvider` is the provider as first rendered,
before its effect on `[user]` has run. The snapshot is still empty, so a
client session calls `FetchCartItems` first, as the mount-time effect
does. `Scenarios.Mounted` does this, and the scenarios that start from
existing rows use it.

## Model

| member | source | states |
|---|---|---|
| `Seqs.Filter` | project/src/App.tsx:52 | `filter`: every kept element is in the input and passes the test; every input element that passes is kept |
| `Seqs.ReduceIsSum` | project/src/contexts/CartContext.tsx:127-132 | the left-fold `reduce` from 0 equals the plain sum of the mapped values |
| `App.Lower` | project/src/App.tsx:56 | `toLowerCase` keeps the length and folds each character on its own |
| `App.LowerIdempotent` | project/src/App.tsx:56 | folding an already folded string changes nothing |
| `App.IncludesIffSubstring` | project/src/App.tsx:59-61 | `includes` holds exactly when the part occurs as a contiguous block of the text |
| `App.TextMatchesIffSubstring` | project/src/App.tsx:57-62 | the search test holds exactly when the query occurs in the folded name, description or brand |
| `App.FilterProductsIsOneFilter` | project/src/App.tsx:48-66 | the category step then the text step equals one filter by "category passes and text passes" |
| `App.FilterProductsMembership` | project/src/App.tsx:51-62 | soundness and completeness: a product is shown if and only if it is in the catalog, its category equals the selected one (or "all" is selected) and, for a non-empty query, the folded query is a substring of its folded name, description or brand |
| `App.FilterProductsIsSubsequence` | project/src/App.tsx:48-66 | the shown list is a subsequence of the catalog, so relative order is kept |
| `App.FilterProductsCount` | project/src/App.tsx:48-66 | a selected product appears as many times as in the catalog; any other product does not appear |
| `App.FilterProductsIdempotent` | project/src/App.tsx:48-66 | filtering the shown list again with the same category and query gives the same list |
| `App.FilterProductsIgnoresQueryCase` | project/src/App.tsx:55-56 | folding the query before filtering changes nothing: the search is case-insensitive in the query |
| `App.MonitorsOnly` | project/src/App.tsx:51-53 | category "monitors" with an empty query over three monitors and two processors gives exactly the three monitors, in order |
| `App.Page.constructor` | project/src/App.tsx:21 | the sign-in dialog starts closed |
| `App.Page.HandleAddToCart` | project/src/App.tsx:68-74 | with nobody signed in, only `isAuthOpen` becomes true and the cart is untouched; otherwise the cart does exactly what `addToCart` does and the dialog flag is unchanged |
| `Cart.Embed` | project/src/contexts/CartContext.tsx:33 | the product embed pairs each row, in order, with the catalog product that its `product_id` names |
| `Cart.UpdateWhereId` | project/src/contexts/CartContext.tsx:99-102 | the update sets the quantity of the rows with that identifier and leaves every other row and the order unchanged |
| `Cart.Find` | project/src/contexts/CartContext.tsx:56 | `find` returns the first line for the product; it returns none exactly when no line has that product |
| `Cart.SelectByUserExact` | project/src/contexts/CartContext.tsx:31-37 | the re-read holds a line for every row of the user, each with its own product, and no other lines; line i holds the user's i-th row, and those rows keep table order |
| `Cart.DeleteWhereIdExact` | project/src/contexts/CartContext.tsx:80-83 | delete-by-id keeps exactly the rows with another identifier, in order; an identifier not in the table leaves the table unchanged |
| `Cart.DeleteWhereUserExact` | project/src/contexts/CartContext.tsx:115-118 | delete-by-user leaves no row of that user, and every other user's rows are exactly as before |
| `Cart.UpdateWhereIdAbsent` | project/src/contexts/CartContext.tsx:99-102 | updating an identifier not in the table changes nothing |
| `Cart.DeleteKeepsInvariants` | project/src/contexts/CartContext.tsx:78-90 | a delete keeps unique identifiers, the product foreign key, one row per (user, product) and positive quantities |
| `Cart.UpdateKeepsInvariants` | project/src/contexts/CartContext.tsx:92-109 | an update keeps identifiers, users and products, and so keeps the invariants; a quantity of at least 1 keeps the quantities positive |
| `Cart.InsertKeepsOnePerProduct` | project/src/contexts/CartContext.tsx:56-70 | if the snapshot is the user's rows and has no line for the product, inserting (user, product, 1) keeps at most one row per (user, product) |
| `Cart.FindOwnRow` | project/src/contexts/CartContext.tsx:56 | with one row per (user, product), `find` on the user's re-read snapshot returns exactly that user's row for the product, with its product |
| `Cart.FindNoRow` | project/src/contexts/CartContext.tsx:56 | `find` on the user's re-read snapshot returns none when the user has no row for the product |
| `Cart.UpdateWhereIdSets` | project/src/contexts/CartContext.tsx:99-102 | after the update by a row's identifier, that row with the new quantity is in the table |
| `Cart.InsertKeepsWellFormed` | project/src/contexts/CartContext.tsx:61-68 | inserting a row with a fresh identifier and an existing product keeps the table well formed |
| `Cart.CountZeroIffEmpty` | project/src/contexts/CartContext.tsx:132 | with positive quantities, `cartCount` is at least the number of lines, and it is 0 exactly when the cart is empty |
| `Cart.CartProvider.constructor` | project/src/contexts/CartContext.tsx:20-21 | the provider as first rendered, before the effect on `[user]` runs: an empty snapshot, `loading` false and no alerts |
| `Cart.CartProvider.CartTotal` | project/src/contexts/CartContext.tsx:127-130 | `cartTotal` is the sum over the snapshot of price × quantity |
| `Cart.CartProvider.CartCount` | project/src/contexts/CartContext.tsx:132 | `cartCount` is the sum over the snapshot of the quantities |
| `Cart.CartProvider.CountOfSynced` | project/src/components/Header.tsx:42 | on a synced snapshot of rows with positive quantities, `cartCount` is at least the number of lines, and the badge's `cartCount > 0` holds exactly when the cart has a line |
| `Cart.CartProvider.FetchCartItems` | project/src/contexts/CartContext.tsx:23-43 | with nobody signed in the snapshot becomes empty and nothing else changes; otherwise `loading` ends false, and the snapshot is either replaced by exactly the user's rows (no merge) or, when the read fails, left as it was |
| `Cart.CartProvider.SetUser` | project/src/contexts/CartContext.tsx:45-47 | a change of user re-reads the cart for the new user, replacing the snapshot when the read succeeds |
| `Cart.CartProvider.RemoveFromCart` | project/src/contexts/CartContext.tsx:78-90 | on success the table loses exactly the row with that identifier and the snapshot is re-read; on failure the table and the snapshot are unchanged; the invariants are kept |
| `Cart.CartProvider.UpdateQuantity` | project/src/contexts/CartContext.tsx:92-109 | a quantity below 1 has exactly the effect of `RemoveFromCart`; any other quantity sets only that row's quantity and then re-reads; the invariants are kept |
| `Cart.CartProvider.AddToCart` | project/src/contexts/CartContext.tsx:49-76 | with nobody signed in, nothing changes except the sign-in alert; if the snapshot has a line for the product, its quantity is raised by one through `UpdateQuantity` and no row is inserted; otherwise one row (user, product, 1) is inserted with a fresh identifier and the cart is re-read, or, when the insert fails or the product is not in the catalog (the foreign key), the failure alert is shown; one row per (user, product) is kept when the snapshot was fresh |
| `Cart.CartProvider.InsertRow` | project/src/contexts/CartContext.tsx:61-70 | the insert appends (user, product, 1) with a fresh identifier and then re-reads; it keeps one row per (user, product) when the snapshot was fresh and had no line for the product |
| `Cart.CartProvider.Insert` | project/src/contexts/CartContext.tsx:61-68 | the store's insert appends the row, moves the identifier counter on and keeps the table well formed |
| `Cart.CartProvider.ClearCart` | project/src/contexts/CartContext.tsx:111-125 | with nobody signed in, or when the delete fails, nothing changes; on success every row of the user is deleted and the snapshot is set to empty without a re-read |
| `Scenarios.Mounted` | project/src/contexts/CartContext.tsx:45-47 | the provider once mounted: built, then re-read by the effect on `[user]`, so the snapshot is exactly the user's rows |
| `Scenarios.AddToEmpty` | project/src/contexts/CartContext.tsx:60-70 | adding a product to an empty cart inserts one row of quantity 1 and shows it |
| `Scenarios.AddTwice` | project/src/contexts/CartContext.tsx:49-76 | two adds of one product to an empty cart give one row of quantity 2, a total of twice the price and a count of 2 |
| `Scenarios.AddFirst` | project/src/contexts/CartContext.tsx:60-70 | the first successful add of a product the user has no row for inserts a row of quantity 1; the snapshot stays fresh and no alert is shown |
| `Scenarios.AddToExisting` | project/src/contexts/CartContext.tsx:56-59 | a successful add of a product already in the snapshot raises that row's quantity by one and re-reads the user's rows |
| `Scenarios.AddAgain` | project/src/contexts/CartContext.tsx:56-59 | on a fresh snapshot, a further add takes the user's row for the product from `k` units to `k + 1` |
| `Scenarios.AddRepeatedly` | project/src/contexts/CartContext.tsx:56-70 | `n` successful adds of one product, from a fresh snapshot with no row for it, leave exactly one row for (user, product), of quantity `n`, and no alert |
| `Scenarios.Decrement` | project/src/contexts/CartContext.tsx:92-109 | the drawer's `quantity - 1` on a row of quantity 2 leaves quantity 1 and a total of one price; a second press deletes the row |
| `Scenarios.SwitchUser` | project/src/contexts/CartContext.tsx:45-47 | after a change of user, a successful re-read shows only the new user's rows; a failed one leaves the previous user's lines |
| `Scenarios.StaleSnapshotDuplicates` | project/src/contexts/CartContext.tsx:56-70 | after an insert whose re-read failed, a second add of the same product inserts a duplicate (user, product) row |
| `Scenarios.SignedOutAdd` | project/src/contexts/CartContext.tsx:50-53 | with nobody signed in, adding leaves the table unchanged and shows only the sign-in alert |

## Left out

- Rendering: the markup of `App.tsx` and the components `CartDrawer`, `Header`, `ProductCard` and `CategoryFilter`. These only display state and call the provider.
- `fetchProducts` (`App.tsx` lines 32-46): a read of the `products` table, which the store orders. The catalog is a constant map of the provider.
- `handleCheckout` and the drawer and checkout flags (`App.tsx` lines 20, 22, 76-79): dialog state with no logic.
- Creating the store client from environment variables (`supabase.ts` lines 1-6). Store queries are functions on the table.
- Row-level security rules of the store are not visible in the source. Deletes and updates by identifier act on any row.
- Server-generated values are simplified:
  - cart row identifiers are a counter, not UUIDs;
  - cart rows have no `created_at`;
  - the `select` has no `order` clause, so the store's row order is unspecified. The model fixes insertion order, and an update keeps a row's position. This order matters only to `Find`'s "first line", and only when a product has more than one row.
- Concurrency: every operation runs atomically and one at a time. The async interleavings are not modelled, and neither is the double-click race in `addToCart`. `loading` is shown true only inside `FetchCartItems`.
- Floating-point prices, the `cartTotal` float sum and `toFixed` formatting: prices are integer cents.
- The store's other write errors (network failures, constraint errors other than the product foreign key) are not told apart. Each is the `writeOk = false` case. An insert for a product missing from the catalog is the one store rejection the model derives itself (`AddedToCart`).
- Logging is dropped. `alert` is modelled as the `alerts` sequence.
- `toLowerCase` folds only ASCII letters. Unicode case mapping is not modelled.
- `Order`, `OrderItem`, `AuthContext`, `AuthModal` and `CheckoutModal` are not part of this model. The signed-in user is a field that `SetUser` changes.
- The `useCart` error thrown outside a provider (`CartContext.tsx` lines 152-158): React context wiring.
