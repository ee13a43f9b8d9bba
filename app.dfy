/** The storefront page (project/src/App.tsx): the catalog filter that derives
    the visible products from the category buttons and the search box, and
    the add-to-cart handler that asks for sign-in when nobody is signed in. */
module App {
  import opened Seqs
  import opened Supabase
  import opened Wrappers
  import Cart

  // ---------------------------------------------------------------------
  // Text matching: `toLowerCase` and `includes`
  // ---------------------------------------------------------------------

  /** ASCII case folding of one character. */
  function LowerChar(c: char): char
  {
    if 'A' <= c <= 'Z' then (c as int - 'A' as int + 'a' as int) as char else c
  }

  /** `s.toLowerCase()`, restricted to ASCII letters. */
  function Lower(s: string): (r: string)
    ensures |r| == |s|
    ensures forall i :: 0 <= i < |s| ==> r[i] == LowerChar(s[i])
  {
    if s == [] then [] else [LowerChar(s[0])] + Lower(s[1..])
  }

  lemma LowerIdempotent(s: string)
    ensures Lower(Lower(s)) == Lower(s)
  {
  }

  predicate StartsWith(text: string, part: string)
  {
    |part| <= |text| && text[..|part|] == part
  }

  /** `text.includes(part)`: does `part` start at some position of `text`? */
  predicate Includes(text: string, part: string)
    decreases |text|
  {
    StartsWith(text, part) || (text != [] && Includes(text[1..], part))
  }

  /** `part` occurs as a contiguous block of `text`. */
  ghost predicate IsSubstring(part: string, text: string)
  {
    exists i, j :: 0 <= i <= j <= |text| && text[i..j] == part
  }

  lemma {:induction false} IncludesIffSubstring(text: string, part: string)
    ensures Includes(text, part) <==> IsSubstring(part, text)
    decreases |text|
  {
    if StartsWith(text, part) {
      assert text[0..|part|] == part;
    }
    if text != [] {
      IncludesIffSubstring(text[1..], part);
      if Includes(text[1..], part) {
        var i, j :| 0 <= i <= j <= |text[1..]| && text[1..][i..j] == part;
        assert text[1..][i..j] == text[i + 1..j + 1];
      }
      if IsSubstring(part, text) {
        var i, j :| 0 <= i <= j <= |text| && text[i..j] == part;
        if i > 0 {
          assert text[1..][i - 1..j - 1] == part;
        } else {
          assert StartsWith(text, part);
        }
      }
    } else if IsSubstring(part, text) {
      assert part == [];
    }
  }

  // ---------------------------------------------------------------------
  // filterProducts
  // ---------------------------------------------------------------------

  /** The search step's test: the (already folded) query occurs in the folded
      name, description or brand. */
  predicate TextMatches(p: Product, query: string)
  {
    Includes(Lower(p.name), query) || Includes(Lower(p.description), query) || Includes(Lower(p.brand), query)
  }

  function InCategory(category: string): Product -> bool
  {
    (p: Product) => p.category == category
  }

  function MatchesText(query: string): Product -> bool
  {
    (p: Product) => TextMatches(p, query)
  }

  /** The products shown for a category button and a search text: first the
      exact category match unless the sentinel "all" is selected, then the
      case-folded text match unless the search box is empty. */
  function FilterProducts(products: seq<Product>, selectedCategory: string, searchQuery: string): seq<Product>
  {
    var byCategory :=
      if selectedCategory != "all" then Filter(products, InCategory(selectedCategory)) else products;
    if searchQuery != "" then Filter(byCategory, MatchesText(Lower(searchQuery))) else byCategory
  }

  /** Both conditions in one pass: the single selection the two steps make. */
  predicate Selected(p: Product, selectedCategory: string, searchQuery: string)
  {
    (selectedCategory == "all" || p.category == selectedCategory) &&
    (searchQuery == "" || TextMatches(p, Lower(searchQuery)))
  }

  function Selects(selectedCategory: string, searchQuery: string): Product -> bool
  {
    (p: Product) => Selected(p, selectedCategory, searchQuery)
  }

  /** The two chained filters are one filter by the conjunction of their tests. */
  lemma FilterProductsIsOneFilter(products: seq<Product>, selectedCategory: string, searchQuery: string)
    ensures FilterProducts(products, selectedCategory, searchQuery)
         == Filter(products, Selects(selectedCategory, searchQuery))
  {
    var sel := Selects(selectedCategory, searchQuery);
    if selectedCategory != "all" && searchQuery != "" {
      FilterFuse(products, InCategory(selectedCategory), MatchesText(Lower(searchQuery)), sel);
    } else if selectedCategory != "all" {
      FilterExtensional(products, InCategory(selectedCategory), sel);
    } else if searchQuery != "" {
      FilterExtensional(products, MatchesText(Lower(searchQuery)), sel);
    } else {
      FilterKeepsAll(products, sel);
    }
  }

  /** The folded query is a substring of the folded name, description or brand. */
  lemma TextMatchesIffSubstring(p: Product, query: string)
    ensures TextMatches(p, query) <==>
      IsSubstring(query, Lower(p.name)) || IsSubstring(query, Lower(p.description)) || IsSubstring(query, Lower(p.brand))
  {
    IncludesIffSubstring(Lower(p.name), query);
    IncludesIffSubstring(Lower(p.description), query);
    IncludesIffSubstring(Lower(p.brand), query);
  }

  /** Soundness and completeness: a product is shown exactly when it is in the
      catalog, passes the category step ("all" passes everything) and, for a
      non-empty search, its name, description or brand contains the query,
      both case-folded. */
  lemma FilterProductsMembership(products: seq<Product>, selectedCategory: string, searchQuery: string, p: Product)
    ensures p in FilterProducts(products, selectedCategory, searchQuery) <==>
      p in products &&
      (selectedCategory == "all" || p.category == selectedCategory) &&
      (searchQuery == "" ||
       IsSubstring(Lower(searchQuery), Lower(p.name)) ||
       IsSubstring(Lower(searchQuery), Lower(p.description)) ||
       IsSubstring(Lower(searchQuery), Lower(p.brand)))
  {
    FilterProductsIsOneFilter(products, selectedCategory, searchQuery);
    TextMatchesIffSubstring(p, Lower(searchQuery));
    var r := Filter(products, Selects(selectedCategory, searchQuery));
    if p in r {
      var i :| 0 <= i < |r| && r[i] == p;
    }
    if p in products {
      var i :| 0 <= i < |products| && products[i] == p;
    }
  }

  /** The shown list keeps the catalog's order: it is a subsequence. */
  lemma FilterProductsIsSubsequence(products: seq<Product>, selectedCategory: string, searchQuery: string)
    ensures IsSubsequence(FilterProducts(products, selectedCategory, searchQuery), products)
  {
    FilterProductsIsOneFilter(products, selectedCategory, searchQuery);
    FilterIsSubsequence(products, Selects(selectedCategory, searchQuery));
  }

  /** A selected product is shown as many times as the catalog lists it. */
  lemma FilterProductsCount(products: seq<Product>, selectedCategory: string, searchQuery: string, p: Product)
    ensures multiset(FilterProducts(products, selectedCategory, searchQuery))[p]
         == if Selected(p, selectedCategory, searchQuery) then multiset(products)[p] else 0
  {
    FilterProductsIsOneFilter(products, selectedCategory, searchQuery);
    FilterCount(products, Selects(selectedCategory, searchQuery), p);
  }

  /** Re-running the filter on its own output changes nothing. */
  lemma FilterProductsIdempotent(products: seq<Product>, selectedCategory: string, searchQuery: string)
    ensures FilterProducts(FilterProducts(products, selectedCategory, searchQuery), selectedCategory, searchQuery)
         == FilterProducts(products, selectedCategory, searchQuery)
  {
    var once := FilterProducts(products, selectedCategory, searchQuery);
    FilterProductsIsOneFilter(products, selectedCategory, searchQuery);
    FilterProductsIsOneFilter(once, selectedCategory, searchQuery);
    FilterIdempotent(products, Selects(selectedCategory, searchQuery));
  }

  /** The search is case-insensitive in the query: folding it first changes nothing. */
  lemma FilterProductsIgnoresQueryCase(products: seq<Product>, selectedCategory: string, searchQuery: string)
    ensures FilterProducts(products, selectedCategory, Lower(searchQuery))
         == FilterProducts(products, selectedCategory, searchQuery)
  {
    LowerIdempotent(searchQuery);
  }

  /** Three monitors and two processors, category "monitors", empty search:
      exactly the three monitors, in their catalog order. */
  lemma MonitorsOnly(m1: Product, m2: Product, m3: Product, c1: Product, c2: Product)
    requires m1.category == "monitors" && m2.category == "monitors" && m3.category == "monitors"
    requires c1.category == "processors" && c2.category == "processors"
    ensures FilterProducts([m1, c1, m2, c2, m3], "monitors", "") == [m1, m2, m3]
  {
    var inCat := InCategory("monitors");
    assert Filter([m3], inCat) == [m3] by {
      assert [m3][1..] == [];
    }
    assert Filter([c2, m3], inCat) == [m3] by {
      assert [c2, m3][1..] == [m3];
    }
    assert Filter([m2, c2, m3], inCat) == [m2, m3] by {
      assert [m2, c2, m3][1..] == [c2, m3];
    }
    assert Filter([c1, m2, c2, m3], inCat) == [m2, m3] by {
      assert [c1, m2, c2, m3][1..] == [m2, c2, m3];
    }
    assert [m1, c1, m2, c2, m3][1..] == [c1, m2, c2, m3];
  }

  // ---------------------------------------------------------------------
  // handleAddToCart
  // ---------------------------------------------------------------------

  /** The page state that `handleAddToCart` touches: whether the sign-in
      dialog is open, and the cart provider the page uses. The page and the
      provider see the same signed-in user. */
  class Page {
    const cart: Cart.CartProvider
    var isAuthOpen: bool

    constructor(cart: Cart.CartProvider)
      ensures this.cart == cart && !isAuthOpen
    {
      this.cart := cart;
      isAuthOpen := false;
    }

    /** With nobody signed in, open the sign-in dialog and leave the cart
        alone; otherwise add the product to the cart. */
    method HandleAddToCart(product: Product, writeOk: bool, fetchOk: bool)
      requires cart.Valid()
      modifies this`isAuthOpen, cart`remote, cart`nextId, cart`cartItems, cart`loading, cart`alerts
      ensures cart.Valid()
      ensures old(cart.user).None? ==> isAuthOpen && unchanged(cart)
      ensures old(cart.user).Some? ==> isAuthOpen == old(isAuthOpen) && cart.AddedToCart(product, writeOk, fetchOk)
    {
      if cart.user.None? {
        isAuthOpen := true;
        return;
      }
      cart.AddToCart(product, writeOk, fetchOk);
    }
  }
}
