/** `Array.prototype.filter` over product lists, with the callbacks both
    components pass to it, and the search and category stages built on it. */
module Filtering {
  import opened Products

  /** The filter callbacks. `TitleIncludes` and `CategoryIs` are the ones the
      components pass; `PriceIs` picks the rows of one price, which is how the
      stability of the price sort is stated. */
  datatype Criterion = TitleIncludes(term: string) | CategoryIs(category: string) | PriceIs(price: int)

  predicate Keeps(c: Criterion, p: Product) {
    match c
    case TitleIncludes(term) => Includes(Lower(p.title), Lower(term))
    case CategoryIs(category) => p.category == category
    case PriceIs(price) => p.price == price
  }

  /** `s.filter(c)`: the kept elements, in their original order. */
  function Filter(s: seq<Product>, c: Criterion): seq<Product> {
    if s == [] then []
    else (if Keeps(c, s[0]) then [s[0]] else []) + Filter(s[1..], c)
  }

  /** How many elements of `s` the criterion keeps. */
  function Count(s: seq<Product>, c: Criterion): nat {
    if s == [] then 0
    else (if Keeps(c, s[0]) then 1 else 0) + Count(s[1..], c)
  }

  /** `a` is `b` with some elements deleted, the others kept in order. */
  predicate IsSubsequence(a: seq<Product>, b: seq<Product>)
    decreases |b|
  {
    a == [] ||
    (b != [] && ((a[0] == b[0] && IsSubsequence(a[1..], b[1..])) || IsSubsequence(a, b[1..])))
  }

  predicate AllKept(s: seq<Product>, c: Criterion) {
    forall i :: 0 <= i < |s| ==> Keeps(c, s[i])
  }

  /** The filter result is an order-preserving subsequence of its input, keeps
      nothing the criterion rejects, and is as long as the number of accepted
      elements, so no accepted element is dropped. */
  lemma {:induction false} FilterExact(s: seq<Product>, c: Criterion)
    ensures IsSubsequence(Filter(s, c), s)
    ensures AllKept(Filter(s, c), c)
    ensures |Filter(s, c)| == Count(s, c)
  {
    if s != [] {
      FilterExact(s[1..], c);
      var rest := Filter(s[1..], c);
      if Keeps(c, s[0]) {
        assert Filter(s, c) == [s[0]] + rest;
        assert Filter(s, c)[1..] == rest;
      } else {
        assert Filter(s, c) == rest;
      }
    }
  }

  /** An element is in the filter result exactly when it is in the input and
      accepted. */
  lemma {:induction false} FilterMembership(s: seq<Product>, c: Criterion, x: Product)
    ensures x in Filter(s, c) <==> x in s && Keeps(c, x)
  {
    if s != [] {
      FilterMembership(s[1..], c, x);
      assert s == [s[0]] + s[1..];
    }
  }

  /** A subsequence made only of elements accepted by the criterion has at most
      as many elements as the criterion accepts. */
  lemma {:induction false} SubsequenceCountBound(r: seq<Product>, s: seq<Product>, c: Criterion)
    requires IsSubsequence(r, s)
    requires AllKept(r, c)
    ensures |r| <= Count(s, c)
    decreases |s|
  {
    if r != [] {
      if r[0] == s[0] && IsSubsequence(r[1..], s[1..]) {
        SubsequenceCountBound(r[1..], s[1..], c);
      } else {
        SubsequenceCountBound(r, s[1..], c);
      }
    }
  }

  /** The three facts of `FilterExact` pin the filter down: any sequence that
      has them is the filter result. */
  lemma {:induction false} FilterUnique(r: seq<Product>, s: seq<Product>, c: Criterion)
    requires IsSubsequence(r, s)
    requires AllKept(r, c)
    requires |r| == Count(s, c)
    ensures r == Filter(s, c)
    decreases |s|
  {
    if s == [] {
    } else if Keeps(c, s[0]) {
      if r[0] == s[0] && IsSubsequence(r[1..], s[1..]) {
        FilterUnique(r[1..], s[1..], c);
        assert r == [r[0]] + r[1..];
      } else {
        SubsequenceCountBound(r, s[1..], c);
      }
    } else if r == [] {
      FilterExact(s[1..], c);
    } else {
      assert Keeps(c, r[0]);
      FilterUnique(r, s[1..], c);
    }
  }

  /** A criterion that accepts every element leaves the input as it is. */
  lemma {:induction false} FilterAllKept(s: seq<Product>, c: Criterion)
    requires AllKept(s, c)
    ensures Filter(s, c) == s
  {
    if s != [] {
      FilterAllKept(s[1..], c);
      assert s == [s[0]] + s[1..];
    }
  }

  /** Filtering a concatenation filters each part. */
  lemma {:induction false} FilterConcat(a: seq<Product>, b: seq<Product>, c: Criterion)
    ensures Filter(a + b, c) == Filter(a, c) + Filter(b, c)
  {
    if a == [] {
      assert a + b == b;
    } else {
      var head := if Keeps(c, a[0]) then [a[0]] else [];
      assert (a + b)[0] == a[0];
      assert (a + b)[1..] == a[1..] + b;
      calc {
        Filter(a + b, c);
        head + Filter(a[1..] + b, c);
        { FilterConcat(a[1..], b, c); }
        head + (Filter(a[1..], c) + Filter(b, c));
        Filter(a, c) + Filter(b, c);
      }
    }
  }

  /** The search callback: the product's lower-cased title includes the
      lower-cased search term. */
  predicate MatchesSearch(p: Product, searchTerm: string) {
    Keeps(TitleIncludes(searchTerm), p)
  }

  /** The search step: `products.filter(p => p.title.toLowerCase()
      .includes(searchTerm.toLowerCase()))`. */
  function SearchStage(products: seq<Product>, searchTerm: string): seq<Product> {
    Filter(products, TitleIncludes(searchTerm))
  }

  /** The search step keeps exactly the matching products, in their original
      order: an order-preserving subsequence, every row matching, every
      matching product present. */
  lemma SearchStageExact(products: seq<Product>, searchTerm: string)
    ensures IsSubsequence(SearchStage(products, searchTerm), products)
    ensures forall p :: p in SearchStage(products, searchTerm) <==> p in products && MatchesSearch(p, searchTerm)
    ensures |SearchStage(products, searchTerm)| == Count(products, TitleIncludes(searchTerm))
  {
    FilterExact(products, TitleIncludes(searchTerm));
    forall p ensures p in SearchStage(products, searchTerm) <==> p in products && MatchesSearch(p, searchTerm) {
      FilterMembership(products, TitleIncludes(searchTerm), p);
    }
  }

  /** An empty search term keeps every product, in order. */
  lemma SearchEmptyTerm(products: seq<Product>)
    ensures SearchStage(products, "") == products
  {
    forall i | 0 <= i < |products| ensures Keeps(TitleIncludes(""), products[i]) {
      IncludesEmpty(Lower(products[i].title));
    }
    FilterAllKept(products, TitleIncludes(""));
  }

  /** The category step: with no category selected the products pass through
      unchanged, otherwise `products.filter(p => p.category === category)`. */
  function CategoryStage(products: seq<Product>, category: string): seq<Product> {
    if category == "" then products else Filter(products, CategoryIs(category))
  }

  /** The category step passes every product when no category is selected,
      and otherwise keeps exactly the products of that category, in order. */
  lemma CategoryStageExact(products: seq<Product>, category: string)
    ensures category == "" ==> CategoryStage(products, category) == products
    ensures category != "" ==> IsSubsequence(CategoryStage(products, category), products)
    ensures category != "" ==>
      forall p :: p in CategoryStage(products, category) <==> p in products && p.category == category
    ensures category != "" ==> |CategoryStage(products, category)| == Count(products, CategoryIs(category))
  {
    if category != "" {
      FilterExact(products, CategoryIs(category));
      forall p ensures p in CategoryStage(products, category) <==> p in products && p.category == category {
        FilterMembership(products, CategoryIs(category), p);
      }
    }
  }
}
