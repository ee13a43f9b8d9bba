/** Client code driving the cart provider through short sessions, with
    what each session observes proved from the provider's contracts. */
module Scenarios {
  import opened Seqs
  import opened Supabase
  import opened Wrappers
  import opened Cart

  function Monitor(price: nat): Product
  {
    Product("a", "Monitor", "27 inch panel", price, "monitors", "Acme", "", 5, map[], 4.5, "")
  }

  /** The provider once mounted: constructed, then the effect on `[user]`
      has re-read the signed-in user's rows. */
  method Mounted(catalog: map<ProductId, Product>, rows: seq<CartItem>, nextId: nat, u: UserId)
    returns (cart: CartProvider)
    requires WellFormed(rows, nextId, catalog)
    ensures fresh(cart) && cart.Valid()
    ensures cart.catalog == catalog && cart.remote == rows && cart.nextId == nextId && cart.user == Some(u)
    ensures cart.cartItems == SelectByUser(rows, u, catalog) && cart.Synced()
    ensures !cart.loading && cart.alerts == []
  {
    cart := new CartProvider(catalog, rows, nextId, Some(u));
    cart.FetchCartItems(true);
  }

  /** Adding a product to an empty cart: one row of quantity 1, shown. */
  method AddToEmpty(a: Product) returns (cart: CartProvider)
    ensures fresh(cart) && cart.Valid() && cart.catalog == map[a.id := a] && cart.user == Some("u1")
    ensures cart.remote == [CartItem(0, "u1", a.id, 1)]
    ensures cart.cartItems == [CartLine(CartItem(0, "u1", a.id, 1), a)]
  {
    cart := new CartProvider(map[a.id := a], [], 0, Some("u1"));
    var row := CartItem(0, "u1", a.id, 1);
    assert [] + [row] == [row];
    SelectSingle(row, "u1", cart.catalog);
    cart.AddToCart(a, true, true);
  }

  /** Adding the same product twice to an empty cart: one row of quantity 2,
      total twice the price, count 2. */
  method AddTwice(price: nat) returns (rows: nat, quantity: int, total: int, count: int)
    ensures rows == 1 && quantity == 2
    ensures total == 2 * price && count == 2
  {
    var a := Monitor(price);
    var cart := AddToEmpty(a);
    var row2 := CartItem(0, "u1", "a", 2);
    SelectSingle(row2, "u1", cart.catalog);
    assert UpdateWhereId([CartItem(0, "u1", "a", 1)], 0, 2) == [row2];
    cart.AddToCart(a, true, true);
    SumSingle(CartLine(row2, a), Subtotal);
    SumSingle(CartLine(row2, a), LineQuantity);
    rows := |cart.remote|;
    quantity := cart.remote[0].quantity;
    total := cart.CartTotal();
    count := cart.CartCount();
  }

  /** After `k` adds of `product`: no row of the user for it when `k` is 0,
      otherwise a row of quantity `k`. */
  ghost predicate AddedTimes(t: seq<CartItem>, u: UserId, productId: ProductId, k: nat)
  {
    (k == 0 ==> forall r :: r in t && r.userId == u ==> r.productId != productId) &&
    (k >= 1 ==> exists r :: r in t && UserProduct(r) == (u, productId) && r.quantity == k)
  }

  /** The first successful add of a product the user has no row for
      inserts a row of quantity 1. */
  method AddFirst(cart: CartProvider, product: Product)
    requires cart.Valid() && cart.Synced() && OnePerProduct(cart.remote)
    requires cart.user.Some? && product.id in cart.catalog
    requires AddedTimes(cart.remote, cart.user.value, product.id, 0)
    modifies cart`remote, cart`nextId, cart`cartItems, cart`loading, cart`alerts
    ensures cart.Valid() && cart.Synced() && OnePerProduct(cart.remote)
    ensures cart.alerts == old(cart.alerts)
    ensures AddedTimes(cart.remote, cart.user.value, product.id, 1)
  {
    ghost var u := cart.user.value;
    ghost var before := cart.remote;
    ghost var row := CartItem(cart.nextId, u, product.id, 1);
    FindNoRow(before, u, cart.catalog, product.id);
    assert Find(cart.cartItems, product.id).None?;
    cart.AddToCart(product, true, true);
    assert cart.remote == before + [row];
    assert row in cart.remote;
  }

  /** A successful add of a product the snapshot already has a line for:
      that line's row gets one more unit and the cart is re-read. */
  method AddToExisting(cart: CartProvider, product: Product, ghost line: CartLine)
    requires cart.Valid() && cart.user.Some?
    requires Find(cart.cartItems, product.id) == Some(line) && line.item.quantity >= 0
    modifies cart`remote, cart`nextId, cart`cartItems, cart`loading, cart`alerts
    ensures cart.Valid() && cart.alerts == old(cart.alerts)
    ensures line.item in old(cart.remote) ==> line.item.(quantity := line.item.quantity + 1) in cart.remote
    ensures old(OnePerProduct(cart.remote)) ==> OnePerProduct(cart.remote)
    ensures cart.cartItems == SelectByUser(cart.remote, cart.user.value, cart.catalog)
  {
    ghost var before := cart.remote;
    ghost var written := UpdateWhereId(before, line.item.id, line.item.quantity + 1);
    cart.AddToCart(product, true, true);
    assert cart.WroteThenFetched(written, true, true);
    assert cart.remote == written;
    if line.item in before {
      UpdateWhereIdSets(before, line.item, line.item.quantity + 1);
    }
    UpdateKeepsInvariants(before, line.item.id, line.item.quantity + 1, cart.nextId, cart.catalog);
  }

  /** A further successful add takes the user's row for the product from
      `k` units to `k + 1`. */
  method AddAgain(cart: CartProvider, product: Product, k: nat)
    requires cart.Valid() && cart.Synced() && OnePerProduct(cart.remote)
    requires cart.user.Some? && k >= 1
    requires AddedTimes(cart.remote, cart.user.value, product.id, k)
    modifies cart`remote, cart`nextId, cart`cartItems, cart`loading, cart`alerts
    ensures cart.Valid() && cart.Synced() && OnePerProduct(cart.remote)
    ensures cart.alerts == old(cart.alerts)
    ensures AddedTimes(cart.remote, cart.user.value, product.id, k + 1)
  {
    ghost var u := cart.user.value;
    ghost var r :| r in cart.remote && UserProduct(r) == (u, product.id) && r.quantity == k;
    FindOwnRow(cart.remote, u, cart.catalog, r);
    ghost var line := Find(cart.cartItems, product.id).value;
    assert line.item == r;
    ghost var raised := line.item.(quantity := line.item.quantity + 1);
    assert raised.quantity == k + 1 && UserProduct(raised) == (u, product.id);
    AddToExisting(cart, product, line);
    assert raised in cart.remote;
  }

  /** `n` successful adds of one product, starting from a fresh snapshot
      and no row for it: exactly one row for (user, product), of quantity
      `n`, and no alert. */
  method AddRepeatedly(cart: CartProvider, product: Product, n: nat)
    requires cart.Valid() && cart.Synced() && OnePerProduct(cart.remote)
    requires cart.user.Some? && product.id in cart.catalog
    requires forall r :: r in cart.remote && r.userId == cart.user.value ==> r.productId != product.id
    modifies cart`remote, cart`nextId, cart`cartItems, cart`loading, cart`alerts
    ensures cart.Valid() && cart.Synced() && OnePerProduct(cart.remote)
    ensures cart.alerts == old(cart.alerts)
    ensures n == 0 ==> forall r :: r in cart.remote && r.userId == cart.user.value ==> r.productId != product.id
    ensures n >= 1 ==> exists r :: r in cart.remote && UserProduct(r) == (cart.user.value, product.id) && r.quantity == n
    ensures forall r :: r in cart.remote && UserProduct(r) == (cart.user.value, product.id) ==> r.quantity == n
  {
    var k := 0;
    while k < n
      invariant 0 <= k <= n
      invariant cart.Valid() && cart.Synced() && OnePerProduct(cart.remote)
      invariant cart.alerts == old(cart.alerts)
      invariant AddedTimes(cart.remote, cart.user.value, product.id, k)
    {
      if k == 0 {
        AddFirst(cart, product);
      } else {
        AddAgain(cart, product, k);
      }
      k := k + 1;
    }
    if n >= 1 {
      ghost var w :| w in cart.remote && UserProduct(w) == (cart.user.value, product.id) && w.quantity == n;
      forall r | r in cart.remote && UserProduct(r) == (cart.user.value, product.id) ensures r.quantity == n {
        DistinctUnique(cart.remote, UserProduct, r, w);
      }
    }
  }

  /** The re-read of a one-row table. */
  lemma SelectSingle(row: CartItem, u: UserId, catalog: map<ProductId, Product>)
    requires row.productId in catalog
    ensures SelectByUser([row], u, catalog) == if row.userId == u then [CartLine(row, catalog[row.productId])] else []
  {
    assert [row][1..] == [];
  }

  /** The filter of a two-element list. */
  lemma FilterPair<T>(x: T, y: T, p: T -> bool)
    ensures Filter([x, y], p) == (if p(x) then [x] else []) + (if p(y) then [y] else [])
  {
    assert [x, y][1..] == [y];
    assert [y][1..] == [];
  }

  lemma SumSingle<T>(x: T, f: T -> int)
    ensures Sum([x], f) == f(x)
  {
    assert [x][1..] == [];
  }

  /** A row of quantity 2: the drawer's minus button (quantity - 1) leaves
      quantity 1 and a total of one price; pressing it again deletes the row. */
  method Decrement(price: nat) returns (totalAtOne: int, rowsAtZero: nat, linesAtZero: nat)
    ensures totalAtOne == price
    ensures rowsAtZero == 0 && linesAtZero == 0
  {
    var a := Monitor(price);
    var row := CartItem(7, "u1", "a", 2);
    var cart := Mounted(map["a" := a], [row], 8, "u1");
    SelectSingle(row, "u1", cart.catalog);
    var line := cart.cartItems[0];
    var row1 := CartItem(7, "u1", "a", 1);
    assert UpdateWhereId([row], 7, 1) == [row1];
    cart.UpdateQuantity(line.item.id, line.item.quantity - 1, true, true);
    SelectSingle(row1, "u1", cart.catalog);
    SumSingle(CartLine(row1, a), Subtotal);
    totalAtOne := cart.CartTotal();
    line := cart.cartItems[0];
    assert DeleteWhereId([row1], 7) == [] by {
      FilterNone([row1], IdIsNot(7));
    }
    cart.UpdateQuantity(line.item.id, line.item.quantity - 1, true, true);
    rowsAtZero := |cart.remote|;
    linesAtZero := |cart.cartItems|;
  }

  /** Switching from one user to another: a successful re-read shows only
      the second user's rows; when the re-read fails the first user's lines
      stay on screen. */
  method SwitchUser(fetchOk: bool) returns (shown: seq<CartLine>)
    ensures fetchOk ==> |shown| == 1 && shown[0].item.userId == "u2"
    ensures !fetchOk ==> |shown| == 1 && shown[0].item.userId == "u1"
  {
    var a := Monitor(100);
    var mine := CartItem(0, "u1", "a", 1);
    var theirs := CartItem(1, "u2", "a", 3);
    FilterPair(mine, theirs, OwnedBy("u1"));
    FilterPair(mine, theirs, OwnedBy("u2"));
    SelectSingle(mine, "u1", map["a" := a]);
    SelectSingle(theirs, "u2", map["a" := a]);
    var cart := Mounted(map["a" := a], [mine, theirs], 2, "u1");
    cart.SetUser(Some("u2"), fetchOk);
    shown := cart.cartItems;
  }

  /** The one-row-per-product rule rests on a fresh snapshot: when the
      re-read after an insert fails, the next add does not see the row and
      inserts a second one for the same user and product. */
  method StaleSnapshotDuplicates() returns (rows: seq<CartItem>)
    ensures |rows| == 2 && rows[0].userId == rows[1].userId && rows[0].productId == rows[1].productId
    ensures !OnePerProduct(rows)
  {
    var a := Monitor(100);
    var cart := new CartProvider(map["a" := a], [], 0, Some("u1"));
    cart.AddToCart(a, true, false);
    assert cart.cartItems == [];
    cart.AddToCart(a, true, true);
    assert cart.remote == [CartItem(0, "u1", "a", 1), CartItem(1, "u1", "a", 1)];
    rows := cart.remote;
    assert UserProduct(rows[0]) == UserProduct(rows[1]);
  }

  /** With nobody signed in, adding asks for sign-in and touches no row. */
  method SignedOutAdd() returns (rows: nat, alerts: seq<Alert>)
    ensures rows == 1 && alerts == [SignInRequired]
  {
    var a := Monitor(100);
    var cart := new CartProvider(map["a" := a], [CartItem(0, "u1", "a", 1)], 1, None);
    cart.AddToCart(a, true, true);
    rows := |cart.remote|;
    alerts := cart.alerts;
  }
}
