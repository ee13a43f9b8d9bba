/** The cart synchronisation engine (project/src/contexts/CartContext.tsx).

    The `cart_items` table of the hosted store is the source of truth; the
    provider keeps a snapshot `cartItems` of the signed-in user's rows (each
    with its product embedded) and re-reads it after every write. Each call to
    the store may fail; a failure is caught and logged, and the snapshot that
    was shown stays. The `*Ok` parameters of the methods say whether the
    write and the re-read succeed. */
module Cart {
  import opened Seqs
  import opened Supabase
  import opened Wrappers

  /** `CartItem & { product: Product }`: a row with its product embedded. */
  datatype CartLine = CartLine(item: CartItem, product: Product)

  /** The two messages `addToCart` shows to the user. */
  datatype Alert = SignInRequired | AddFailed

  // ---------------------------------------------------------------------
  // Keys and row tests
  // ---------------------------------------------------------------------

  function ItemId(r: CartItem): nat { r.id }

  function UserProduct(r: CartItem): (UserId, ProductId) { (r.userId, r.productId) }

  function OwnedBy(u: UserId): CartItem -> bool
  {
    (r: CartItem) => r.userId == u
  }

  function NotOwnedBy(u: UserId): CartItem -> bool
  {
    (r: CartItem) => r.userId != u
  }

  function IdIsNot(id: nat): CartItem -> bool
  {
    (r: CartItem) => r.id != id
  }

  /** The store's own guarantees about the table: row identifiers are
      unique and were handed out before `nextId`, and every row references an
      existing product (the foreign key the embed follows). */
  ghost predicate WellFormed(t: seq<CartItem>, nextId: nat, catalog: map<ProductId, Product>)
  {
    Distinct(t, ItemId) && forall r :: r in t ==> r.id < nextId && r.productId in catalog
  }

  /** The application-level rule: at most one row per (user, product). */
  ghost predicate OnePerProduct(t: seq<CartItem>)
  {
    Distinct(t, UserProduct)
  }

  ghost predicate Positive(t: seq<CartItem>)
  {
    forall r :: r in t ==> r.quantity >= 1
  }

  // ---------------------------------------------------------------------
  // The store's operations on `cart_items`
  // ---------------------------------------------------------------------

  /** The `product:products(*)` embed: each row paired with its product. */
  function Embed(rows: seq<CartItem>, catalog: map<ProductId, Product>): (lines: seq<CartLine>)
    requires forall r :: r in rows ==> r.productId in catalog
    ensures |lines| == |rows|
    ensures forall i :: 0 <= i < |rows| ==>
      lines[i].item == rows[i] && lines[i].product == catalog[rows[i].productId]
  {
    if rows == [] then []
    else [CartLine(rows[0], catalog[rows[0].productId])] + Embed(rows[1..], catalog)
  }

  /** `select('*, product:products(*)').eq('user_id', u)`. */
  function SelectByUser(t: seq<CartItem>, u: UserId, catalog: map<ProductId, Product>): seq<CartLine>
    requires forall r :: r in t ==> r.productId in catalog
  {
    Embed(Filter(t, OwnedBy(u)), catalog)
  }

  /** `delete().eq('id', id)`. */
  function DeleteWhereId(t: seq<CartItem>, id: nat): seq<CartItem>
  {
    Filter(t, IdIsNot(id))
  }

  /** `delete().eq('user_id', u)`. */
  function DeleteWhereUser(t: seq<CartItem>, u: UserId): seq<CartItem>
  {
    Filter(t, NotOwnedBy(u))
  }

  /** `update({ quantity }).eq('id', id)`: the row with that identifier gets
      the new quantity; every other row and the order stay as they were. */
  function UpdateWhereId(t: seq<CartItem>, id: nat, quantity: int): (r: seq<CartItem>)
    ensures |r| == |t|
    ensures forall i :: 0 <= i < |t| ==>
      r[i] == if t[i].id == id then t[i].(quantity := quantity) else t[i]
  {
    if t == [] then []
    else [if t[0].id == id then t[0].(quantity := quantity) else t[0]] + UpdateWhereId(t[1..], id, quantity)
  }

  /** `cartItems.find(item => item.product_id === productId)`: the first line
      for that product, if any. */
  function Find(lines: seq<CartLine>, productId: ProductId): (r: Option<CartLine>)
    ensures r.Some? ==> exists i :: 0 <= i < |lines| && lines[i] == r.value && r.value.item.productId == productId &&
                          forall j :: 0 <= j < i ==> lines[j].item.productId != productId
    ensures r.None? <==> forall i :: 0 <= i < |lines| ==> lines[i].item.productId != productId
  {
    if lines == [] then None
    else if lines[0].item.productId == productId then Some(lines[0])
    else
      var r := Find(lines[1..], productId);
      assert r.Some? ==> exists i :: 0 <= i < |lines[1..]| && lines[1..][i] == r.value && r.value.item.productId == productId &&
                           forall j :: 0 <= j < i ==> lines[1..][j].item.productId != productId;
      assert r.Some? ==> exists i :: 1 <= i < |lines| && lines[i] == r.value && r.value.item.productId == productId &&
                           forall j :: 0 <= j < i ==> lines[j].item.productId != productId;
      r
  }

  function Subtotal(l: CartLine): int { l.product.price * l.item.quantity }

  function LineQuantity(l: CartLine): int { l.item.quantity }

  // ---------------------------------------------------------------------
  // Properties of the table operations
  // ---------------------------------------------------------------------

  /** The re-read returns exactly the user's rows, each with its own product,
      in table order. */
  lemma SelectByUserExact(t: seq<CartItem>, u: UserId, catalog: map<ProductId, Product>)
    requires forall r :: r in t ==> r.productId in catalog
    ensures forall r :: r in t && r.userId == u ==> CartLine(r, catalog[r.productId]) in SelectByUser(t, u, catalog)
    ensures forall l :: l in SelectByUser(t, u, catalog) ==>
      l.item in t && l.item.userId == u && l.product == catalog[l.item.productId]
    ensures |SelectByUser(t, u, catalog)| == |Filter(t, OwnedBy(u))|
    ensures forall i :: 0 <= i < |Filter(t, OwnedBy(u))| ==> SelectByUser(t, u, catalog)[i].item == Filter(t, OwnedBy(u))[i]
    ensures IsSubsequence(Filter(t, OwnedBy(u)), t)
  {
    var rows := Filter(t, OwnedBy(u));
    var lines := SelectByUser(t, u, catalog);
    forall r | r in t && r.userId == u ensures CartLine(r, catalog[r.productId]) in lines {
      var k :| 0 <= k < |t| && t[k] == r;
      assert r in rows;
      var i :| 0 <= i < |rows| && rows[i] == r;
      assert lines[i] == CartLine(r, catalog[r.productId]);
    }
    forall l | l in lines ensures l.item in t && l.item.userId == u && l.product == catalog[l.item.productId] {
      var i :| 0 <= i < |lines| && lines[i] == l;
      assert l.item == rows[i];
    }
    FilterIsSubsequence(t, OwnedBy(u));
  }

  /** `removeFromCart` deletes the row with that identifier and keeps every
      other row in order; an identifier not in the table changes nothing. */
  lemma DeleteWhereIdExact(t: seq<CartItem>, id: nat)
    ensures forall r :: r in DeleteWhereId(t, id) <==> r in t && r.id != id
    ensures IsSubsequence(DeleteWhereId(t, id), t)
    ensures (forall r :: r in t ==> r.id != id) ==> DeleteWhereId(t, id) == t
  {
    var d := DeleteWhereId(t, id);
    forall r ensures r in d <==> r in t && r.id != id {
      if r in d {
        var i :| 0 <= i < |d| && d[i] == r;
      }
      if r in t {
        var i :| 0 <= i < |t| && t[i] == r;
      }
    }
    FilterIsSubsequence(t, IdIsNot(id));
    if forall r :: r in t ==> r.id != id {
      FilterKeepsAll(t, IdIsNot(id));
    }
  }

  /** `clearCart` removes every row of the user and keeps every other user's
      rows, in order. */
  lemma DeleteWhereUserExact(t: seq<CartItem>, u: UserId, v: UserId)
    ensures Filter(DeleteWhereUser(t, u), OwnedBy(u)) == []
    ensures v != u ==> Filter(DeleteWhereUser(t, u), OwnedBy(v)) == Filter(t, OwnedBy(v))
  {
    var d := DeleteWhereUser(t, u);
    forall r | r in d ensures !OwnedBy(u)(r) {
      var i :| 0 <= i < |d| && d[i] == r;
    }
    FilterNone(d, OwnedBy(u));
    if v != u {
      FilterFuse(t, NotOwnedBy(u), OwnedBy(v), OwnedBy(v));
    }
  }

  /** An identifier not in the table makes the update change nothing. */
  lemma UpdateWhereIdAbsent(t: seq<CartItem>, id: nat, quantity: int)
    requires forall r :: r in t ==> r.id != id
    ensures UpdateWhereId(t, id, quantity) == t
  {
    var u := UpdateWhereId(t, id, quantity);
    forall i | 0 <= i < |t| ensures u[i] == t[i] {
      assert t[i] in t;
    }
  }

  /** Deleting rows keeps the store's guarantees and the one-row-per-product
      rule, and keeps quantities positive. */
  lemma DeleteKeepsInvariants(t: seq<CartItem>, p: CartItem -> bool, nextId: nat, catalog: map<ProductId, Product>)
    ensures WellFormed(t, nextId, catalog) ==> WellFormed(Filter(t, p), nextId, catalog)
    ensures OnePerProduct(t) ==> OnePerProduct(Filter(t, p))
    ensures Positive(t) ==> Positive(Filter(t, p))
  {
    var d := Filter(t, p);
    forall r | r in d ensures r in t {
      var i :| 0 <= i < |d| && d[i] == r;
    }
    if Distinct(t, ItemId) {
      DistinctFilter(t, ItemId, p);
    }
    if Distinct(t, UserProduct) {
      DistinctFilter(t, UserProduct, p);
    }
  }

  /** A quantity update keeps identifiers, users and products, hence the
      store's guarantees and the one-row-per-product rule; a positive new
      quantity keeps all quantities positive. */
  lemma UpdateKeepsInvariants(t: seq<CartItem>, id: nat, quantity: int, nextId: nat, catalog: map<ProductId, Product>)
    ensures WellFormed(t, nextId, catalog) ==> WellFormed(UpdateWhereId(t, id, quantity), nextId, catalog)
    ensures OnePerProduct(t) ==> OnePerProduct(UpdateWhereId(t, id, quantity))
    ensures Positive(t) && quantity >= 1 ==> Positive(UpdateWhereId(t, id, quantity))
  {
    var u := UpdateWhereId(t, id, quantity);
    assert forall i :: 0 <= i < |t| ==> ItemId(u[i]) == ItemId(t[i]) && UserProduct(u[i]) == UserProduct(t[i]);
    if WellFormed(t, nextId, catalog) {
      DistinctSameKeys(t, u, ItemId);
      forall r | r in u ensures r.id < nextId && r.productId in catalog {
        var i :| 0 <= i < |u| && u[i] == r;
        assert t[i] in t;
      }
    }
    if OnePerProduct(t) {
      DistinctSameKeys(t, u, UserProduct);
    }
    if Positive(t) && quantity >= 1 {
      forall r | r in u ensures r.quantity >= 1 {
        var i :| 0 <= i < |u| && u[i] == r;
        assert t[i] in t;
      }
    }
  }

  /** The de-duplication argument of `addToCart`: when the snapshot is the
      user's rows and it holds no line for the product, inserting a row for
      (user, product) keeps at most one row per (user, product). */
  lemma InsertKeepsOnePerProduct(t: seq<CartItem>, u: UserId, productId: ProductId, id: nat,
                                 catalog: map<ProductId, Product>)
    requires forall r :: r in t ==> r.productId in catalog
    requires OnePerProduct(t)
    requires Find(SelectByUser(t, u, catalog), productId).None?
    ensures OnePerProduct(t + [CartItem(id, u, productId, 1)])
  {
    var row := CartItem(id, u, productId, 1);
    var lines := SelectByUser(t, u, catalog);
    SelectByUserExact(t, u, catalog);
    forall y | y in t ensures UserProduct(y) != UserProduct(row) {
      if y.userId == u {
        var l := CartLine(y, catalog[y.productId]);
        assert l in lines;
        var i :| 0 <= i < |lines| && lines[i] == l;
      }
    }
    DistinctAppend(t, row, UserProduct);
  }

  /** With one row per (user, product), `find` on the user's re-read snapshot
      for a product the user has a row for returns that very row. */
  lemma FindOwnRow(t: seq<CartItem>, u: UserId, catalog: map<ProductId, Product>, r: CartItem)
    requires forall x :: x in t ==> x.productId in catalog
    requires OnePerProduct(t)
    requires r in t && r.userId == u
    ensures Find(SelectByUser(t, u, catalog), r.productId) == Some(CartLine(r, catalog[r.productId]))
  {
    var lines := SelectByUser(t, u, catalog);
    SelectByUserExact(t, u, catalog);
    var l := CartLine(r, catalog[r.productId]);
    assert l in lines;
    var k :| 0 <= k < |lines| && lines[k] == l;
    var f := Find(lines, r.productId);
    assert f.Some?;
    var i :| 0 <= i < |lines| && lines[i] == f.value;
    assert f.value in lines;
    DistinctUnique(t, UserProduct, f.value.item, r);
  }

  /** `find` on the user's re-read snapshot finds nothing for a product the
      user has no row for. */
  lemma FindNoRow(t: seq<CartItem>, u: UserId, catalog: map<ProductId, Product>, productId: ProductId)
    requires forall x :: x in t ==> x.productId in catalog
    requires forall x :: x in t && x.userId == u ==> x.productId != productId
    ensures Find(SelectByUser(t, u, catalog), productId).None?
  {
    var lines := SelectByUser(t, u, catalog);
    SelectByUserExact(t, u, catalog);
    forall i | 0 <= i < |lines| ensures lines[i].item.productId != productId {
      assert lines[i] in lines;
    }
  }

  /** The update by a row's identifier puts that row, with the new quantity,
      in the table. */
  lemma UpdateWhereIdSets(t: seq<CartItem>, r: CartItem, quantity: int)
    requires r in t
    ensures r.(quantity := quantity) in UpdateWhereId(t, r.id, quantity)
  {
    var i :| 0 <= i < |t| && t[i] == r;
    assert UpdateWhereId(t, r.id, quantity)[i] == r.(quantity := quantity);
  }

  /** A fresh identifier and an existing product keep the store's guarantees. */
  lemma InsertKeepsWellFormed(t: seq<CartItem>, row: CartItem, nextId: nat, catalog: map<ProductId, Product>)
    requires WellFormed(t, nextId, catalog)
    requires row.id == nextId && row.productId in catalog
    ensures WellFormed(t + [row], nextId + 1, catalog)
  {
    forall y | y in t ensures ItemId(y) != ItemId(row) { }
    DistinctAppend(t, row, ItemId);
  }

  /** The header badge: with positive quantities the count is at least the
      number of lines, and zero exactly when the cart is empty. */
  lemma CountZeroIffEmpty(lines: seq<CartLine>)
    requires forall l :: l in lines ==> l.item.quantity >= 1
    ensures Reduce(lines, LineQuantity, 0) >= |lines|
    ensures Reduce(lines, LineQuantity, 0) == 0 <==> lines == []
  {
    ReduceIsSum(lines, LineQuantity, 0);
    SumAtLeastLength(lines, LineQuantity);
  }

  // ---------------------------------------------------------------------
  // The provider
  // ---------------------------------------------------------------------

  class CartProvider {
    /** The `products` table, which the client only reads. */
    const catalog: map<ProductId, Product>
    /** The `cart_items` table of the store, in the order it returns rows. */
    var remote: seq<CartItem>
    /** The identifier the store gives the next inserted row. */
    var nextId: nat
    /** The signed-in user, if any. */
    var user: Option<UserId>
    /** The snapshot the page shows. */
    var cartItems: seq<CartLine>
    var loading: bool
    /** The messages shown with `alert`, oldest first. */
    var alerts: seq<Alert>

    ghost predicate Valid()
      reads this
    {
      WellFormed(remote, nextId, catalog)
    }

    /** The snapshot shows exactly the signed-in user's rows (nothing when
        nobody is signed in). */
    ghost predicate Synced()
      reads this
      requires Valid()
    {
      match user
      case None => cartItems == []
      case Some(u) => cartItems == SelectByUser(remote, u, catalog)
    }

    /** The provider as first rendered, before its effect on `[user]` runs:
        the snapshot is still empty, so a client calls `FetchCartItems` (the
        mount-time effect) before relying on `Synced()`. */
    constructor(catalog: map<ProductId, Product>, remote: seq<CartItem>, nextId: nat, user: Option<UserId>)
      requires WellFormed(remote, nextId, catalog)
      ensures Valid()
      ensures this.catalog == catalog && this.remote == remote && this.nextId == nextId && this.user == user
      ensures cartItems == [] && !loading && alerts == []
    {
      this.catalog := catalog;
      this.remote := remote;
      this.nextId := nextId;
      this.user := user;
      cartItems := [];
      loading := false;
      alerts := [];
    }

    /** The header badge (`cartCount > 0`) on a synced snapshot of positive
        rows: the count is at least the number of lines, and zero exactly
        when the cart is empty. */
    lemma CountOfSynced()
      requires Valid() && Synced() && Positive(remote)
      ensures CartCount() >= |cartItems|
      ensures CartCount() == 0 <==> cartItems == []
    {
      if user.Some? {
        SelectByUserExact(remote, user.value, catalog);
      }
      CountZeroIffEmpty(cartItems);
      ReduceIsSum(cartItems, LineQuantity, 0);
    }

    /** `cartTotal`: the sum of price times quantity over the snapshot. */
    function CartTotal(): (total: int)
      reads this
      ensures total == Sum(cartItems, Subtotal)
    {
      ReduceIsSum(cartItems, Subtotal, 0);
      Reduce(cartItems, Subtotal, 0)
    }

    /** `cartCount`: the sum of quantities over the snapshot. */
    function CartCount(): (count: int)
      reads this
      ensures count == Sum(cartItems, LineQuantity)
    {
      ReduceIsSum(cartItems, LineQuantity, 0);
      Reduce(cartItems, LineQuantity, 0)
    }

    /** What `fetchCartItems` leaves: with nobody signed in an empty snapshot;
        otherwise `loading` off and, if the read succeeded, exactly the user's
        rows - if it failed, the snapshot from before. */
    twostate predicate Refetched(fetchOk: bool)
      reads this
      requires Valid()
    {
      match user
      case None => cartItems == [] && loading == old(loading)
      case Some(u) => !loading && cartItems == (if fetchOk then SelectByUser(remote, u, catalog) else old(cartItems))
    }

    /** A write followed, when it succeeded, by `fetchCartItems`; a failed
        write leaves the table and the snapshot as they were. */
    twostate predicate WroteThenFetched(written: seq<CartItem>, writeOk: bool, fetchOk: bool)
      reads this
      requires Valid()
    {
      if writeOk then remote == written && Refetched(fetchOk)
      else remote == old(remote) && cartItems == old(cartItems) && loading == old(loading)
    }

    /** Everything `addToCart` may do, compared with the state before it. */
    twostate predicate AddedToCart(product: Product, writeOk: bool, fetchOk: bool)
      reads this
      requires Valid()
    {
      match old(user)
      case None =>
        remote == old(remote) && nextId == old(nextId) && cartItems == old(cartItems) &&
        loading == old(loading) && alerts == old(alerts) + [SignInRequired]
      case Some(u) =>
        match Find(old(cartItems), product.id)
        case Some(line) =>
          var quantity := line.item.quantity + 1;
          nextId == old(nextId) && alerts == old(alerts) &&
          WroteThenFetched(
            if quantity < 1 then DeleteWhereId(old(remote), line.item.id)
            else UpdateWhereId(old(remote), line.item.id, quantity),
            writeOk, fetchOk)
        case None =>
          if writeOk && product.id in catalog then
            nextId == old(nextId) + 1 && alerts == old(alerts) &&
            WroteThenFetched(old(remote) + [CartItem(old(nextId), u, product.id, 1)], true, fetchOk)
          else
            remote == old(remote) && nextId == old(nextId) && cartItems == old(cartItems) &&
            loading == old(loading) && alerts == old(alerts) + [AddFailed]
    }

    method FetchCartItems(fetchOk: bool)
      requires Valid()
      modifies this`cartItems, this`loading
      ensures Refetched(fetchOk)
      ensures user.None? || fetchOk ==> Synced()
    {
      if user.None? {
        cartItems := [];
        return;
      }
      loading := true;
      if fetchOk {
        cartItems := SelectByUser(remote, user.value, catalog);
      }
      loading := false;
    }

    /** The signed-in user changes (sign-in or sign-out) and the effect on
        `[user]` re-reads the cart. */
    method SetUser(newUser: Option<UserId>, fetchOk: bool)
      requires Valid()
      modifies this`user, this`cartItems, this`loading
      ensures Valid() && user == newUser
      ensures Refetched(fetchOk)
    {
      user := newUser;
      FetchCartItems(fetchOk);
    }

    method RemoveFromCart(cartItemId: nat, writeOk: bool, fetchOk: bool)
      requires Valid()
      modifies this`remote, this`cartItems, this`loading
      ensures Valid()
      ensures WroteThenFetched(DeleteWhereId(old(remote), cartItemId), writeOk, fetchOk)
      ensures writeOk && (user.None? || fetchOk) ==> Synced()
      ensures old(OnePerProduct(remote)) ==> OnePerProduct(remote)
      ensures old(Positive(remote)) ==> Positive(remote)
    {
      DeleteKeepsInvariants(remote, IdIsNot(cartItemId), nextId, catalog);
      if writeOk {
        remote := DeleteWhereId(remote, cartItemId);
        FetchCartItems(fetchOk);
      }
    }

    method UpdateQuantity(cartItemId: nat, quantity: int, writeOk: bool, fetchOk: bool)
      requires Valid()
      modifies this`remote, this`cartItems, this`loading
      ensures Valid()
      ensures quantity < 1 ==> WroteThenFetched(DeleteWhereId(old(remote), cartItemId), writeOk, fetchOk)
      ensures quantity >= 1 ==> WroteThenFetched(UpdateWhereId(old(remote), cartItemId, quantity), writeOk, fetchOk)
      ensures writeOk && (user.None? || fetchOk) ==> Synced()
      ensures old(OnePerProduct(remote)) ==> OnePerProduct(remote)
      ensures old(Positive(remote)) ==> Positive(remote)
    {
      if quantity < 1 {
        RemoveFromCart(cartItemId, writeOk, fetchOk);
        return;
      }
      UpdateKeepsInvariants(remote, cartItemId, quantity, nextId, catalog);
      if writeOk {
        remote := UpdateWhereId(remote, cartItemId, quantity);
        FetchCartItems(fetchOk);
      }
    }

    /** The successful `insert` of lines 61-68, a row (user, product, 1)
        with a fresh identifier, followed by the re-read. */
    method InsertRow(product: Product, fetchOk: bool)
      requires Valid() && user.Some? && product.id in catalog
      modifies this`remote, this`nextId, this`cartItems, this`loading
      ensures Valid()
      ensures nextId == old(nextId) + 1
      ensures WroteThenFetched(old(remote) + [CartItem(old(nextId), user.value, product.id, 1)], true, fetchOk)
      ensures old(OnePerProduct(remote)) && old(Synced()) && Find(old(cartItems), product.id).None? ==> OnePerProduct(remote)
      ensures old(Positive(remote)) ==> Positive(remote)
    {
      ghost var keepsOne := OnePerProduct(remote) && Synced() && Find(cartItems, product.id).None?;
      if keepsOne {
        InsertKeepsOnePerProduct(remote, user.value, product.id, nextId, catalog);
      }
      Insert(CartItem(nextId, user.value, product.id, 1));
      FetchCartItems(fetchOk);
    }

    /** The store's `insert`: the row is appended and the identifier counter
        moves on. */
    method Insert(row: CartItem)
      requires Valid() && row.id == nextId && row.productId in catalog
      modifies this`remote, this`nextId
      ensures Valid()
      ensures remote == old(remote) + [row] && nextId == old(nextId) + 1
      ensures old(Positive(remote)) && row.quantity >= 1 ==> Positive(remote)
    {
      InsertKeepsWellFormed(remote, row, nextId, catalog);
      remote := remote + [row];
      nextId := nextId + 1;
    }

    method AddToCart(product: Product, writeOk: bool, fetchOk: bool)
      requires Valid()
      modifies this`remote, this`nextId, this`cartItems, this`loading, this`alerts
      ensures Valid()
      ensures AddedToCart(product, writeOk, fetchOk)
      ensures old(OnePerProduct(remote)) && old(Synced()) ==> OnePerProduct(remote)
      ensures old(Positive(remote)) ==> Positive(remote)
    {
      if user.None? {
        alerts := alerts + [SignInRequired];
        return;
      }
      var existing := Find(cartItems, product.id);
      if existing.Some? {
        UpdateQuantity(existing.value.item.id, existing.value.item.quantity + 1, writeOk, fetchOk);
      } else if writeOk && product.id in catalog {
        InsertRow(product, fetchOk);
      } else {
        alerts := alerts + [AddFailed];
      }
    }

    method ClearCart(writeOk: bool)
      requires Valid()
      modifies this`remote, this`cartItems
      ensures Valid()
      ensures user.None? || !writeOk ==> remote == old(remote) && cartItems == old(cartItems)
      ensures user.Some? && writeOk ==> remote == DeleteWhereUser(old(remote), user.value) && cartItems == []
      ensures user.Some? && writeOk ==> Synced()
      ensures old(OnePerProduct(remote)) ==> OnePerProduct(remote)
      ensures old(Positive(remote)) ==> Positive(remote)
    {
      if user.None? {
        return;
      }
      if writeOk {
        var u := user.value;
        DeleteKeepsInvariants(remote, NotOwnedBy(u), nextId, catalog);
        DeleteWhereUserExact(remote, u, u);
        remote := DeleteWhereUser(remote, u);
        cartItems := [];
      }
    }
  }
}
