/** The storefront's product list (`js/products.js`): the category-button
    filter, the category drop-down filter, the sort drop-down and the guard on
    the fetched reply. Filtering and sorting work on copies and leave the
    module-level `products` array as it is. */
module Catalogue {
  import opened Text

  /** A product as the storefront reads it: `category` is `""` when absent,
      `price` is `price || 0`, `featured` is the field's truthiness. */
  datatype Listed = Listed(id: int, name: string, category: string, price: int, featured: bool)

  // ----- filtering ---------------------------------------------------------

  /** The test a filter applies to each product. */
  datatype Criterion =
    | SameCategoryAs(formatted: string)  // `product.category && category.toLowerCase() === formatted.toLowerCase()`
    | ExactCategory(category: string)    // `product.category === category`
    | SameSlug(slug: string)             // the category's own slug equals the button's

  predicate Accepts(c: Criterion, p: Listed) {
    match c
    case SameCategoryAs(formatted) => p.category != "" && Lower(p.category) == Lower(formatted)
    case ExactCategory(category) => p.category == category
    case SameSlug(slug) => p.category != "" && CategorySlug(p.category) == slug
  }

  /** `products.filter(...)` with criterion `c`: the accepted products, in order. */
  function Select(products: seq<Listed>, c: Criterion): (r: seq<Listed>)
    ensures |r| <= |products|
    ensures forall i :: 0 <= i < |r| ==> r[i] in products && Accepts(c, r[i])
    ensures forall i :: 0 <= i < |products| && Accepts(c, products[i]) ==> products[i] in r
    ensures (forall i :: 0 <= i < |products| ==> Accepts(c, products[i])) ==> r == products
  {
    if products == [] then []
    else if Accepts(c, products[0]) then [products[0]] + Select(products[1..], c)
    else Select(products[1..], c)
  }

  /** Selecting works piece by piece: the accepted products of `a` come first,
      in their order, followed by those of `b`. */
  lemma {:induction false} SelectConcat(a: seq<Listed>, b: seq<Listed>, c: Criterion)
    ensures Select(a + b, c) == Select(a, c) + Select(b, c)
  {
    if a == [] {
      assert a + b == b;
    } else {
      assert (a + b)[0] == a[0];
      assert (a + b)[1..] == a[1..] + b;
      SelectConcat(a[1..], b, c);
      if Accepts(c, a[0]) {
        calc {
          Select(a + b, c);
          [a[0]] + Select(a[1..] + b, c);
          [a[0]] + (Select(a[1..], c) + Select(b, c));
          ([a[0]] + Select(a[1..], c)) + Select(b, c);
          Select(a, c) + Select(b, c);
        }
      } else {
        calc {
          Select(a + b, c);
          Select(a[1..] + b, c);
          Select(a[1..], c) + Select(b, c);
          Select(a, c) + Select(b, c);
        }
      }
    }
  }

  /** One product is kept exactly when it is accepted. */
  lemma SelectOne(p: Listed, c: Criterion)
    ensures Select([p], c) == if Accepts(c, p) then [p] else []
  {
    assert [p][1..] == [];
  }

  /** Each accepted product occurs in the result as often as in the input, and
      no other product occurs at all. */
  lemma {:induction false} SelectCount(products: seq<Listed>, c: Criterion, p: Listed)
    ensures multiset(Select(products, c))[p] == if Accepts(c, p) then multiset(products)[p] else 0
  {
    if products != [] {
      var x, rest := products[0], products[1..];
      SelectCount(rest, c, p);
      assert products == [x] + rest;
      assert multiset(products)[p] == multiset([x])[p] + multiset(rest)[p];
      if Accepts(c, x) {
        assert Select(products, c) == [x] + Select(rest, c);
        assert multiset(Select(products, c))[p] == multiset([x])[p] + multiset(Select(rest, c))[p];
      } else {
        assert Select(products, c) == Select(rest, c);
        assert x == p ==> !Accepts(c, p);
      }
    }
  }

  /** Criteria that agree on every product select the same products. */
  lemma {:induction false} SelectAgree(products: seq<Listed>, c: Criterion, d: Criterion)
    requires forall i :: 0 <= i < |products| ==> Accepts(c, products[i]) == Accepts(d, products[i])
    ensures Select(products, c) == Select(products, d)
  {
    if products != [] {
      SelectAgree(products[1..], c, d);
    }
  }

  /** `slug.split('-').map(capitalise).join(' ')`: the button's slug turned back into a name. */
  function FormattedCategory(slug: string): string {
    JoinWith(CapitaliseAll(SplitOn(slug, '-')), ' ')
  }

  /** `filterProductsByCategory`: `'all'` shows every product; any other slug
      shows the products whose category matches its formatted name. */
  function FilterByCategory(products: seq<Listed>, slug: string): (r: seq<Listed>)
    ensures slug == "all" ==> r == products
    ensures slug != "all" ==> forall i :: 0 <= i < |r| ==>
      r[i] in products && r[i].category != "" && Lower(r[i].category) == Lower(FormattedCategory(slug))
    ensures slug != "all" ==> forall i :: 0 <= i < |products| ==>
      products[i].category != "" && Lower(products[i].category) == Lower(FormattedCategory(slug)) ==> products[i] in r
  {
    if slug == "all" then products else Select(products, SameCategoryAs(FormattedCategory(slug)))
  }

  /** The category-button filter keeps the order of the products it shows and
      shows each of them as often as it is listed. */
  lemma FilterByCategoryConcat(a: seq<Listed>, b: seq<Listed>, slug: string)
    ensures FilterByCategory(a + b, slug) == FilterByCategory(a, slug) + FilterByCategory(b, slug)
  {
    if slug != "all" {
      SelectConcat(a, b, SameCategoryAs(FormattedCategory(slug)));
    }
  }

  lemma LowerIdempotent(s: string)
    ensures Lower(Lower(s)) == Lower(s)
  {
    assert forall i :: 0 <= i < |s| ==> Lower(Lower(s))[i] == Lower(s)[i];
  }

  /** Lower-casing neither creates nor removes a `-`. */
  lemma LowerKeepsDashes(s: string)
    ensures forall i :: 0 <= i < |s| ==> (Lower(s)[i] == '-' <==> s[i] == '-')
  {
  }

  /** For a name without `-` whose whitespace is single spaces, formatting its
      slug gives the name back up to case. */
  lemma FormattedSlugRoundTrip(name: string)
    requires '-' !in name && SingleSpaced(name)
    ensures Lower(FormattedCategory(CategorySlug(name))) == Lower(name)
  {
    var low := Lower(name);
    LowerKeepsSingleSpaced(name);
    CollapseSingleSpaces(low);
    var slug := ReplaceChar(low, ' ', '-');
    assert CategorySlug(name) == slug;
    LowerJoinCapitalised(SplitOn(slug, '-'), ' ');
    JoinSplit(slug, '-', ' ');
    LowerKeepsDashes(name);
    assert forall i :: 0 <= i < |name| ==> name[i] != '-';
    assert ReplaceChar(slug, '-', ' ') == low;
    LowerIdempotent(name);
  }

  /** Clicking a category's button shows exactly the products whose category is
      that name up to case, provided the name has no `-`, its whitespace is
      single spaces and its slug is not `all`. */
  lemma {:induction false} ButtonShowsItsCategory(products: seq<Listed>, name: string)
    requires '-' !in name && SingleSpaced(name) && CategorySlug(name) != "all"
    ensures FilterByCategory(products, CategorySlug(name)) == Select(products, SameCategoryAs(name))
  {
    var formatted := FormattedCategory(CategorySlug(name));
    FormattedSlugRoundTrip(name);
    SelectAgree(products, SameCategoryAs(formatted), SameCategoryAs(name));
  }

  /** The formatted name of any slug contains no `-` once lower-cased. */
  lemma FormattedHasNoDash(slug: string)
    ensures '-' !in Lower(FormattedCategory(slug))
  {
    LowerJoinCapitalised(SplitOn(slug, '-'), ' ');
    JoinSplit(slug, '-', ' ');
    var plain := ReplaceChar(slug, '-', ' ');
    LowerKeepsDashes(plain);
    assert forall i :: 0 <= i < |plain| ==> plain[i] != '-';
  }

  /** A product whose category contains `-` (such as `Anti-Aging`) is never
      shown by any category button, its own included. */
  lemma HyphenatedCategoryNeverShown(products: seq<Listed>, slug: string)
    requires slug != "all"
    ensures forall i :: 0 <= i < |FilterByCategory(products, slug)| ==>
      '-' !in FilterByCategory(products, slug)[i].category
  {
    FormattedHasNoDash(slug);
    var r := FilterByCategory(products, slug);
    forall i | 0 <= i < |r|
      ensures '-' !in r[i].category
    {
      LowerKeepsDashes(r[i].category);
    }
  }

  /** The category filter comparing slugs instead of de-slugged names: a
      button then shows every product of its category, hyphens included. */
  function FilterBySlug(products: seq<Listed>, slug: string): (r: seq<Listed>)
    ensures slug == "all" ==> r == products
    ensures slug != "all" ==> forall i :: 0 <= i < |r| ==>
      r[i] in products && r[i].category != "" && CategorySlug(r[i].category) == slug
    ensures forall i :: 0 <= i < |products| && products[i].category != "" && CategorySlug(products[i].category) == slug ==>
      products[i] in r
  {
    if slug == "all" then products else Select(products, SameSlug(slug))
  }

  /** With slugs compared, a category's button shows every product of that
      category, whatever characters its name holds. */
  lemma SlugButtonShowsItsCategory(products: seq<Listed>, name: string)
    requires name != ""
    ensures forall i :: 0 <= i < |products| && products[i].category == name ==>
      products[i] in FilterBySlug(products, CategorySlug(name))
  {
  }

  /** `filterProducts`: no selection shows everything; a selection shows the
      products whose category is exactly it, in their order. */
  function FilterProducts(products: seq<Listed>, selected: string): (r: seq<Listed>)
    ensures selected == "" ==> r == products
    ensures selected != "" ==> forall i :: 0 <= i < |r| ==> r[i] in products && r[i].category == selected
    ensures selected != "" ==> forall i :: 0 <= i < |products| && products[i].category == selected ==> products[i] in r
  {
    if selected == "" then products else Select(products, ExactCategory(selected))
  }

  /** The drop-down filter is an order-preserving subsequence: filtering a
      concatenation filters each part, one product is kept exactly when its
      category is the selection, and a kept product appears as often as it is
      listed. */
  lemma FilterProductsSubsequence(a: seq<Listed>, b: seq<Listed>, selected: string, p: Listed)
    requires selected != ""
    ensures FilterProducts(a + b, selected) == FilterProducts(a, selected) + FilterProducts(b, selected)
    ensures FilterProducts([p], selected) == if p.category == selected then [p] else []
    ensures multiset(FilterProducts(a, selected))[p] == if p.category == selected then multiset(a)[p] else 0
  {
    SelectConcat(a, b, ExactCategory(selected));
    SelectOne(p, ExactCategory(selected));
    SelectCount(a, ExactCategory(selected), p);
  }

  // ----- sorting -----------------------------------------------------------

  /** The sort drop-down's choices this model covers. */
  datatype SortOrder = Featured | PriceLow | PriceHigh | AsListed

  /** The comparator as a key: `Array.prototype.sort` with `(a, b) => key(a) - key(b)`. */
  function SortKey(order: SortOrder, p: Listed): int {
    match order
    case Featured => if p.featured then 0 else 1
    case PriceLow => p.price
    case PriceHigh => -p.price
    case AsListed => 0
  }

  predicate SortedBy(ps: seq<Listed>, order: SortOrder) {
    forall i, j :: 0 <= i < j < |ps| ==> SortKey(order, ps[i]) <= SortKey(order, ps[j])
  }

  /** Insert `x` before the first element with a larger key: ahead of equal
      keys, which keeps the sort stable when the list is built from the back. */
  function Insert(order: SortOrder, x: Listed, s: seq<Listed>): (r: seq<Listed>)
    requires SortedBy(s, order)
    ensures SortedBy(r, order)
    ensures multiset(r) == multiset(s) + multiset{x}
  {
    if s == [] then [x]
    else if SortKey(order, x) <= SortKey(order, s[0]) then [x] + s
    else
      var rest := Insert(order, x, s[1..]);
      assert s == [s[0]] + s[1..];
      BoundedBelow(order, SortKey(order, s[0]), x, s[1..], rest);
      [s[0]] + rest
  }

  /** A key below `x`'s and below every key of `s` is below every key of a
      sequence holding `x` and the elements of `s`. */
  lemma BoundedBelow(order: SortOrder, k: int, x: Listed, s: seq<Listed>, r: seq<Listed>)
    requires k <= SortKey(order, x)
    requires forall i :: 0 <= i < |s| ==> k <= SortKey(order, s[i])
    requires multiset(r) == multiset(s) + multiset{x}
    ensures forall i :: 0 <= i < |r| ==> k <= SortKey(order, r[i])
  {
    forall i | 0 <= i < |r|
      ensures k <= SortKey(order, r[i])
    {
      assert r[i] in multiset(r);
      if r[i] != x {
        assert r[i] in multiset(s);
      }
    }
  }

  function SortBy(order: SortOrder, ps: seq<Listed>): (r: seq<Listed>)
    ensures SortedBy(r, order)
    ensures multiset(r) == multiset(ps)
  {
    if ps == [] then []
    else
      assert ps == [ps[0]] + ps[1..];
      Insert(order, ps[0], SortBy(order, ps[1..]))
  }

  /** `sortProducts`: a sorted copy, a permutation of the products. */
  function SortProducts(products: seq<Listed>, order: SortOrder): (r: seq<Listed>)
    ensures multiset(r) == multiset(products) && |r| == |products|
    ensures order == PriceLow ==> forall i, j :: 0 <= i < j < |r| ==> r[i].price <= r[j].price
    ensures order == PriceHigh ==> forall i, j :: 0 <= i < j < |r| ==> r[i].price >= r[j].price
    ensures order == Featured ==> forall i, j :: 0 <= i < j < |r| && r[j].featured ==> r[i].featured
    ensures order == AsListed ==> r == products
  {
    if order == AsListed then products
    else
      var r := SortBy(order, products);
      assert |r| == |multiset(r)| == |multiset(products)| == |products|;
      assert order == PriceLow ==> forall i, j :: 0 <= i < j < |r| ==> SortKey(order, r[i]) <= SortKey(order, r[j]);
      r
  }

  // ----- the page state ----------------------------------------------------

  /** The reply to `fetch('/api/products')`. */
  datatype Reply = NotOk | ArrayBody(items: seq<Listed>) | OtherBody

  /** The module-level `products` and `error` of the storefront page. */
  class Storefront {
    var products: seq<Listed>
    var failed: bool

    constructor()
      ensures products == [] && !failed
    {
      products := [];
      failed := false;
    }

    /** `fetchProducts`: an array reply replaces the products, any other reply
        empties them, and a failed request leaves them and returns `[]`. */
    method FetchProducts(reply: Reply) returns (loaded: seq<Listed>)
      modifies this
      ensures reply.NotOk? ==> products == old(products) && failed && loaded == []
      ensures reply.ArrayBody? ==> products == reply.items && !failed && loaded == products
      ensures reply.OtherBody? ==> products == [] && !failed && loaded == []
    {
      match reply {
        case NotOk =>
          failed := true;
          loaded := [];
        case ArrayBody(items) =>
          products := items;
          failed := false;
          loaded := items;
        case OtherBody =>
          products := [];
          failed := false;
          loaded := [];
      }
    }

    /** The list a category button renders. */
    method ShowCategory(slug: string) returns (shown: seq<Listed>)
      ensures shown == FilterByCategory(products, slug)
    {
      shown := FilterByCategory(products, slug);
    }

    /** The list the category drop-down renders. */
    method ShowSelected(selected: string) returns (shown: seq<Listed>)
      ensures shown == FilterProducts(products, selected)
    {
      shown := FilterProducts(products, selected);
    }

    /** The list the sort drop-down renders. */
    method ShowSorted(order: SortOrder) returns (shown: seq<Listed>)
      ensures shown == SortProducts(products, order)
    {
      shown := SortProducts(products, order);
    }
  }
}
