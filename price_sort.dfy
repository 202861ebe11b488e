/** The price sort both components run: `[...rows].sort(comparator)` with the
    comparator that subtracts prices for "asc" and "desc" and returns 0 for
    any other sort type. `Array.prototype.sort` is stable (ECMA-262, 2019
    edition onward, the `Array.prototype.sort` clause), so for this
    comparator its result is fixed; `SortByPrice` is that result, computed as
    a stable insertion sort, and `SortInPlace` is the in-place sort of the
    copied array. */
module PriceSort {
  import opened Products
  import opened Filtering

  /** The three branches of the comparator: "asc", "desc", anything else. */
  datatype Direction = Ascending | Descending | Unordered

  /** Which branch of the comparator a `sortType` value selects. */
  function DirectionOf(sortType: string): (d: Direction)
    ensures d == Ascending <==> sortType == "asc"
    ensures d == Descending <==> sortType == "desc"
  {
    if sortType == "asc" then Ascending
    else if sortType == "desc" then Descending
    else Unordered
  }

  /** The sort comparator: negative or zero when `a` may stay before `b`. */
  function Compare(dir: Direction, a: Product, b: Product): (r: int)
    ensures dir == Ascending ==> (r <= 0 <==> a.price <= b.price)
    ensures dir == Descending ==> (r <= 0 <==> b.price <= a.price)
    ensures dir == Unordered ==> r == 0
    ensures r > 0 ==> a.price != b.price
  {
    match dir
    case Ascending => a.price - b.price
    case Descending => b.price - a.price
    case Unordered => 0
  }

  /** The rows at `i - 1` and `i` are in comparator order. */
  predicate InOrderAt(dir: Direction, s: seq<Product>, i: int)
    requires 0 < i < |s|
  {
    Compare(dir, s[i - 1], s[i]) <= 0
  }

  /** Adjacent rows are in comparator order. */
  predicate Ordered(dir: Direction, s: seq<Product>) {
    forall i :: 0 < i < |s| ==> InOrderAt(dir, s, i)
  }

  /** Inserts `x` after every row of `sorted` that it does not compare below,
      scanning from the right as an insertion sort does; `x` never passes a
      row that compares equal to it. */
  function Insert(sorted: seq<Product>, x: Product, dir: Direction): (r: seq<Product>)
    ensures |r| == |sorted| + 1
    decreases |sorted|
  {
    if sorted == [] || Compare(dir, sorted[|sorted| - 1], x) <= 0 then sorted + [x]
    else
      var n := |sorted| - 1;
      Insert(sorted[..n], x, dir) + [sorted[n]]
  }

  /** The rows the stable sort produces, as many as it is given. */
  function SortByPrice(s: seq<Product>, dir: Direction): (r: seq<Product>)
    ensures |r| == |s|
    decreases |s|
  {
    if s == [] then []
    else
      var n := |s| - 1;
      Insert(SortByPrice(s[..n], dir), s[n], dir)
  }

  /** Inserting adds `x` and keeps every other row. */
  lemma {:induction false} InsertPermutation(sorted: seq<Product>, x: Product, dir: Direction)
    ensures multiset(Insert(sorted, x, dir)) == multiset(sorted) + multiset{x}
    decreases |sorted|
  {
    if sorted != [] && Compare(dir, sorted[|sorted| - 1], x) > 0 {
      var n := |sorted| - 1;
      var prefix := sorted[..n];
      var y := sorted[n];
      InsertPermutation(prefix, x, dir);
      assert sorted == prefix + [y];
      assert Insert(sorted, x, dir) == Insert(prefix, x, dir) + [y];
    }
  }

  /** The sort result is a permutation of its input. */
  lemma {:induction false} SortPermutation(s: seq<Product>, dir: Direction)
    ensures multiset(SortByPrice(s, dir)) == multiset(s)
    decreases |s|
  {
    if s != [] {
      var n := |s| - 1;
      var prefix := s[..n];
      calc {
        multiset(SortByPrice(s, dir));
        multiset(Insert(SortByPrice(prefix, dir), s[n], dir));
        { InsertPermutation(SortByPrice(prefix, dir), s[n], dir); }
        multiset(SortByPrice(prefix, dir)) + multiset{s[n]};
        { SortPermutation(prefix, dir); }
        multiset(prefix) + multiset{s[n]};
        multiset(prefix + [s[n]]);
        { assert prefix + [s[n]] == s; }
        multiset(s);
      }
    }
  }

  /** Inserting into an ordered sequence keeps it ordered; the new last row is
      either `x` or the old last row. */
  lemma {:induction false} InsertOrdered(sorted: seq<Product>, x: Product, dir: Direction)
    requires Ordered(dir, sorted)
    ensures Ordered(dir, Insert(sorted, x, dir))
    ensures var r := Insert(sorted, x, dir);
      r[|sorted|] == x || (sorted != [] && r[|sorted|] == sorted[|sorted| - 1])
    decreases |sorted|
  {
    var r := Insert(sorted, x, dir);
    if sorted == [] || Compare(dir, sorted[|sorted| - 1], x) <= 0 {
      forall i | 0 < i < |r| ensures InOrderAt(dir, r, i) {
        if i < |sorted| {
          assert InOrderAt(dir, sorted, i);
        }
      }
    } else {
      var n := |sorted| - 1;
      var y := sorted[n];
      OrderedPrefix(sorted, dir, n);
      InsertOrdered(sorted[..n], x, dir);
      var r' := Insert(sorted[..n], x, dir);
      assert r == r' + [y];
      forall i | 0 < i < |r| ensures InOrderAt(dir, r, i) {
        if i <= n {
          assert InOrderAt(dir, r', i);
        } else if r'[n] == x {
          assert Compare(dir, x, y) <= 0;
        } else {
          assert InOrderAt(dir, sorted, n);
        }
      }
    }
  }

  /** Rows whose price is `price`, in order. */
  function WithPrice(s: seq<Product>, price: int): seq<Product> {
    Filter(s, PriceIs(price))
  }

  lemma SingleWithPrice(x: Product, price: int)
    ensures WithPrice([x], price) == if x.price == price then [x] else []
  {
    assert [x][1..] == [];
    assert Filter([], PriceIs(price)) == [];
  }

  /** Rows of two different prices: at most one of them is of `price`, so
      their `price` groups can be taken in either order. */
  lemma SinglesCommute(x: Product, y: Product, price: int)
    requires x.price != y.price
    ensures WithPrice([x], price) + WithPrice([y], price) == WithPrice([y], price) + WithPrice([x], price)
  {
    SingleWithPrice(x, price);
    SingleWithPrice(y, price);
  }

  /** Inserting `x` appends it to the rows of its own price and leaves the
      rows of every other price as they were. */
  lemma {:induction false} InsertStable(sorted: seq<Product>, x: Product, dir: Direction, price: int)
    ensures WithPrice(Insert(sorted, x, dir), price) == WithPrice(sorted, price) + WithPrice([x], price)
    decreases |sorted|
  {
    if sorted == [] || Compare(dir, sorted[|sorted| - 1], x) <= 0 {
      FilterConcat(sorted, [x], PriceIs(price));
    } else {
      var n := |sorted| - 1;
      var y := sorted[n];
      var prefix := sorted[..n];
      var ins := Insert(prefix, x, dir);
      var wx, wy := WithPrice([x], price), WithPrice([y], price);
      assert Insert(sorted, x, dir) == ins + [y];
      calc {
        WithPrice(ins + [y], price);
        { FilterConcat(ins, [y], PriceIs(price)); }
        WithPrice(ins, price) + wy;
        { InsertStable(prefix, x, dir, price); }
        WithPrice(prefix, price) + wx + wy;
        WithPrice(prefix, price) + (wx + wy);
        { SinglesCommute(x, y, price); }
        WithPrice(prefix, price) + (wy + wx);
        WithPrice(prefix, price) + wy + wx;
        { FilterConcat(prefix, [y], PriceIs(price)); }
        WithPrice(prefix + [y], price) + wx;
        { assert prefix + [y] == sorted; }
        WithPrice(sorted, price) + wx;
      }
    }
  }

  /** The sort is stable: for every price, the rows of that price come out in
      the order they went in. */
  lemma {:induction false} SortStable(s: seq<Product>, dir: Direction, price: int)
    ensures WithPrice(SortByPrice(s, dir), price) == WithPrice(s, price)
    decreases |s|
  {
    if s != [] {
      var n := |s| - 1;
      SortStable(s[..n], dir, price);
      InsertStable(SortByPrice(s[..n], dir), s[n], dir, price);
      assert s == s[..n] + [s[n]];
      FilterConcat(s[..n], [s[n]], PriceIs(price));
    }
  }

  /** The sort result is in comparator order. */
  lemma {:induction false} SortOrdered(s: seq<Product>, dir: Direction)
    ensures Ordered(dir, SortByPrice(s, dir))
    decreases |s|
  {
    if s != [] {
      var n := |s| - 1;
      SortOrdered(s[..n], dir);
      InsertOrdered(SortByPrice(s[..n], dir), s[n], dir);
    }
  }

  /** In an ordered sequence every row is in comparator order with every later
      row, not only with its neighbour. */
  lemma {:induction false} OrderedPairwise(s: seq<Product>, dir: Direction, i: int, j: int)
    requires Ordered(dir, s)
    requires 0 <= i < j < |s|
    ensures Compare(dir, s[i], s[j]) <= 0
    decreases j - i
  {
    assert InOrderAt(dir, s, i + 1);
    if i + 1 < j {
      OrderedPairwise(s, dir, i + 1, j);
    }
  }

  /** Ascending gives prices that never decrease along the rows, descending
      prices that never increase. */
  lemma SortOrdersPrices(s: seq<Product>, dir: Direction)
    ensures var r := SortByPrice(s, dir);
      dir == Ascending ==> forall i, j :: 0 <= i < j < |r| ==> r[i].price <= r[j].price
    ensures var r := SortByPrice(s, dir);
      dir == Descending ==> forall i, j :: 0 <= i < j < |r| ==> r[i].price >= r[j].price
  {
    SortOrdered(s, dir);
    var r := SortByPrice(s, dir);
    forall i, j | 0 <= i < j < |r|
      ensures dir == Ascending ==> r[i].price <= r[j].price
      ensures dir == Descending ==> r[i].price >= r[j].price
    {
      OrderedPairwise(r, dir, i, j);
    }
  }

  lemma OrderedPrefix(s: seq<Product>, dir: Direction, n: nat)
    requires Ordered(dir, s) && n <= |s|
    ensures Ordered(dir, s[..n])
  {
    var prefix := s[..n];
    forall i | 0 < i < n ensures InOrderAt(dir, prefix, i) {
      assert InOrderAt(dir, s, i);
      assert prefix[i - 1] == s[i - 1] && prefix[i] == s[i];
    }
  }

  /** A sequence already in comparator order is left as it is. */
  lemma {:induction false} SortOfOrdered(s: seq<Product>, dir: Direction)
    requires Ordered(dir, s)
    ensures SortByPrice(s, dir) == s
    decreases |s|
  {
    if s != [] {
      var n := |s| - 1;
      var prefix := s[..n];
      assert SortByPrice(prefix, dir) == prefix by {
        OrderedPrefix(s, dir, n);
        SortOfOrdered(prefix, dir);
      }
      assert Insert(prefix, s[n], dir) == prefix + [s[n]] by {
        assert n > 0 ==> InOrderAt(dir, s, n) && prefix[n - 1] == s[n - 1];
      }
      assert s == prefix + [s[n]];
    }
  }

  /** Any sort type other than "asc" and "desc" makes every comparison 0, and
      the stable sort then keeps the input order exactly. */
  lemma SortUnordered(s: seq<Product>, dir: Direction)
    requires dir == Unordered
    ensures SortByPrice(s, dir) == s
  {
    SortOfOrdered(s, dir);
  }

  /** Sorting the sorted rows again changes nothing. */
  lemma SortIdempotent(s: seq<Product>, dir: Direction)
    ensures SortByPrice(SortByPrice(s, dir), dir) == SortByPrice(s, dir)
  {
    SortOrdered(s, dir);
    SortOfOrdered(SortByPrice(s, dir), dir);
  }

  /** The rows that compare equal to a row of price `price`: those of that
      price for "asc" and "desc", every row when the comparator always
      returns 0. */
  function Ties(s: seq<Product>, dir: Direction, price: int): seq<Product> {
    if dir == Unordered then s else WithPrice(s, price)
  }

  /** The sort keeps every group of tied rows in its input order, which is
      what ECMA-262 asks of a stable sort. */
  lemma SortKeepsTies(s: seq<Product>, dir: Direction, price: int)
    ensures Ties(SortByPrice(s, dir), dir, price) == Ties(s, dir, price)
  {
    if dir == Unordered {
      SortUnordered(s, dir);
    } else {
      SortStable(s, dir, price);
    }
  }

  lemma OrderedTail(s: seq<Product>, dir: Direction)
    requires Ordered(dir, s) && s != []
    ensures Ordered(dir, s[1..])
  {
    var tail := s[1..];
    forall i | 0 < i < |tail| ensures InOrderAt(dir, tail, i) {
      assert InOrderAt(dir, s, i + 1);
      assert tail[i - 1] == s[i] && tail[i] == s[i + 1];
    }
  }

  /** A row of `r` has a price no later than any row of the same price class
      in an ordered `r`: the first row of an ordered sequence compares at most
      0 with every row in it. */
  lemma FirstComparesBelow(r: seq<Product>, dir: Direction, b: Product)
    requires Ordered(dir, r) && r != []
    requires b in r
    ensures Compare(dir, r[0], b) <= 0
  {
    var k :| 0 <= k < |r| && r[k] == b;
    if k > 0 {
      OrderedPairwise(r, dir, 0, k);
    }
  }

  /** The first row of a sequence is among the rows of its own price. */
  lemma HeadHasClass(s: seq<Product>)
    requires s != []
    ensures WithPrice(s, s[0].price) != []
  {
  }

  /** Two sequences ordered by the "asc" or "desc" comparator that hold the
      same rows of every price in the same order are equal. */
  lemma {:induction false} OrderedEqual(r: seq<Product>, t: seq<Product>, dir: Direction)
    requires dir != Unordered
    requires Ordered(dir, r) && Ordered(dir, t)
    requires forall price :: WithPrice(r, price) == WithPrice(t, price)
    ensures r == t
    decreases |r| + |t|
  {
    if r == [] && t == [] {
    } else if r == [] {
      HeadHasClass(t);
    } else if t == [] {
      HeadHasClass(r);
    } else {
      var a, b := r[0], t[0];
      assert a in t by {
        assert a in WithPrice(r, a.price);
        FilterMembership(t, PriceIs(a.price), a);
      }
      assert b in r by {
        assert b in WithPrice(t, b.price);
        FilterMembership(r, PriceIs(b.price), b);
      }
      FirstComparesBelow(r, dir, b);
      FirstComparesBelow(t, dir, a);
      var m := a.price;
      assert b.price == m;
      assert WithPrice(r, m) == [a] + WithPrice(r[1..], m);
      assert WithPrice(t, m) == [b] + WithPrice(t[1..], m);
      assert a == b by {
        assert WithPrice(r, m)[0] == a && WithPrice(t, m)[0] == b;
      }
      forall price ensures WithPrice(r[1..], price) == WithPrice(t[1..], price) {
        if price == m {
          assert WithPrice(r[1..], m) == WithPrice(r, m)[1..];
          assert WithPrice(t[1..], m) == WithPrice(t, m)[1..];
        } else {
          assert WithPrice(r[1..], price) == WithPrice(r, price);
          assert WithPrice(t[1..], price) == WithPrice(t, price);
        }
      }
      OrderedTail(r, dir);
      OrderedTail(t, dir);
      OrderedEqual(r[1..], t[1..], dir);
      assert r == [a] + r[1..] && t == [b] + t[1..];
    }
  }

  /** Any result a conforming engine may give, that is any sequence in
      comparator order that keeps every group of tied input rows in input
      order, is `SortByPrice`: for this comparator the stable sort has
      exactly one result. */
  lemma SortUnique(s: seq<Product>, dir: Direction, r: seq<Product>)
    requires Ordered(dir, r)
    requires forall price :: Ties(r, dir, price) == Ties(s, dir, price)
    ensures r == SortByPrice(s, dir)
  {
    if dir == Unordered {
      assert Ties(r, dir, 0) == Ties(s, dir, 0);
      SortUnordered(s, dir);
    } else {
      var t := SortByPrice(s, dir);
      SortOrdered(s, dir);
      forall price ensures WithPrice(r, price) == WithPrice(t, price) {
        assert Ties(r, dir, price) == Ties(s, dir, price);
        SortStable(s, dir, price);
      }
      OrderedEqual(r, t, dir);
    }
  }

  /** Where `Insert` puts `x`: behind the rows that do not compare above it,
      ahead of a run of rows that all compare strictly above it. */
  lemma {:induction false} InsertSplit(sorted: seq<Product>, x: Product, dir: Direction, j: nat)
    requires j <= |sorted|
    requires forall k :: j <= k < |sorted| ==> Compare(dir, sorted[k], x) > 0
    requires j == 0 || Compare(dir, sorted[j - 1], x) <= 0
    ensures Insert(sorted, x, dir) == sorted[..j] + [x] + sorted[j..]
    decreases |sorted|
  {
    if j == |sorted| {
      assert sorted[..j] == sorted && sorted[j..] == [];
    } else {
      var n := |sorted| - 1;
      var y := sorted[n];
      var prefix := sorted[..n];
      assert Compare(dir, y, x) > 0;
      calc {
        Insert(sorted, x, dir);
        Insert(prefix, x, dir) + [y];
        { InsertSplit(prefix, x, dir, j); }
        prefix[..j] + [x] + prefix[j..] + [y];
        prefix[..j] + [x] + (prefix[j..] + [y]);
        { assert prefix[..j] == sorted[..j]; assert prefix[j..] + [y] == sorted[j..]; }
        sorted[..j] + [x] + sorted[j..];
      }
    }
  }

  /** The same placement stated row by row: a sequence holding the rows of
      `sorted` before index `j`, then `x`, then the remaining rows, is the
      result of `Insert`. */
  lemma InsertPlaced(sorted: seq<Product>, x: Product, dir: Direction, j: nat, r: seq<Product>)
    requires j <= |sorted| && |r| == |sorted| + 1
    requires forall k :: 0 <= k < j ==> r[k] == sorted[k]
    requires r[j] == x
    requires forall k :: j < k < |r| ==> r[k] == sorted[k - 1]
    requires forall k :: j <= k < |sorted| ==> Compare(dir, sorted[k], x) > 0
    requires j == 0 || Compare(dir, sorted[j - 1], x) <= 0
    ensures r == Insert(sorted, x, dir)
  {
    InsertSplit(sorted, x, dir, j);
    var t := sorted[..j] + [x] + sorted[j..];
    forall k | 0 <= k < |r| ensures r[k] == t[k] {
      if k > j {
        assert t[k] == sorted[j..][k - j - 1];
      }
    }
  }

  /** One pass of the insertion sort: the row at `i` is swapped leftwards past
      the rows of the sorted prefix that compare strictly above it. */
  method InsertAt(a: array<Product>, i: nat, dir: Direction)
    requires i < a.Length
    modifies a
    ensures a[..i + 1] == Insert(old(a[..i]), old(a[i]), dir)
    ensures forall k :: i < k < a.Length ==> a[k] == old(a[k])
  {
    ghost var sorted := a[..i];
    ghost var key := a[i];
    var j := i;
    while j > 0 && Compare(dir, a[j - 1], a[j]) > 0
      invariant 0 <= j <= i
      invariant forall k :: 0 <= k < j ==> a[k] == sorted[k]
      invariant a[j] == key
      invariant forall k :: j < k <= i ==> a[k] == sorted[k - 1]
      invariant forall k :: i < k < a.Length ==> a[k] == old(a[k])
      invariant forall k :: j <= k < i ==> Compare(dir, sorted[k], key) > 0
    {
      a[j - 1], a[j] := a[j], a[j - 1];
      j := j - 1;
    }
    assert j > 0 ==> a[j - 1] == sorted[j - 1];
    InsertPlaced(sorted, key, dir, j, a[..i + 1]);
  }

  /** Sorting one more row of `s` inserts that row into the sorted prefix. */
  lemma SortStep(s: seq<Product>, dir: Direction, i: nat)
    requires i < |s|
    ensures SortByPrice(s[..i + 1], dir) == Insert(SortByPrice(s[..i], dir), s[i], dir)
  {
    assert s[..i + 1][..i] == s[..i];
  }

  /** `a.sort(comparator)` on the copied array, as an insertion sort. */
  method SortInPlace(a: array<Product>, dir: Direction)
    modifies a
    ensures a[..] == SortByPrice(old(a[..]), dir)
  {
    ghost var s := a[..];
    var i := 0;
    while i < a.Length
      invariant 0 <= i <= a.Length
      invariant a[..i] == SortByPrice(s[..i], dir)
      invariant forall k :: i <= k < a.Length ==> a[k] == s[k]
    {
      SortStep(s, dir, i);
      InsertAt(a, i, dir);
      i := i + 1;
    }
    assert a[..] == a[..a.Length];
    assert s == s[..a.Length];
  }
}
