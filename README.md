# Product list derivation, modelled in Dafny

The catalog viewer fetches a list of products and shows them in a table. Three
controls shape the table: a search box (case-insensitive substring match on
the title), a category drop-down (exact match on the category) and a sort
drop-down (price ascending, descending or none). A Reset button clears all
three. The same pipeline is written twice:

- `src/components/ProductList.js` is the mounted component. It keeps
  `products`, the three control values, a `loading` flag, `filteredProducts`
  and a separate `sortedProducts`.
- `src/components/App.js` is an unmounted variant. Its sort effect writes its
  sorted copy back into `filteredProducts`. Its category handler filters
  straight away instead of leaving that to an effect.

The model has five modules:

- `Products` (`products.dfy`): the product record and the fetch outcome. It
  also holds `toLowerCase`, folded to ASCII, and `includes`, characterised by
  "occurs at some index".
- `Filtering` (`filtering.dfy`): `Array.prototype.filter` over a first-order
  `Criterion` (title includes, category is, price is). It is pinned down
  exactly: an order-preserving subsequence, every kept row accepted, and as
  many rows as the criterion accepts, which makes the result unique. The
  search stage and the category stage are built on it.
- `PriceSort` (`price_sort.dfy`): the comparator and its three branches.
  `SortByPrice` is a stable insertion sort used as the specification.
  `SortInPlace` sorts an array in place, as `[...rows].sort(cmp)` does to its
  copy, and is proved equal to `SortByPrice`. The module proves that the sort
  is a permutation, is in comparator order, is stable for each price, leaves
  input that is already ordered alone, and is idempotent.
- `ProductListView` (`product_list.dfy`): class `ProductList`. Its fields are
  the `useState` slots, and each effect and handler is a method.
- `AppView` (`app.dfy`): class `App`, the same for the other variant.

`Scenarios` (`scenarios.dfy`) works through a three-row catalog: a shirt at 20
and, in "jewelery", a necklace at 50 and a ring at 10.

Effects are methods that the caller runs explicitly. Each handler writes only
its own control, with two exceptions. `handleReset` in both files writes the
three controls and `filteredProducts`. `handleCategoryChange` in `App.js`
writes `selectedCategory` and `filteredProducts`. Running the effects that
React would schedule afterwards is a separate call.

`ProductList.RunEffects` runs the three effects in declaration order, each one
reading the state the one before it left. This gives the state the component
settles in once `products` has changed. The search and category effects
depend on `products` (src/components/ProductList.js:53, 66). The sort effect
depends on `filteredProducts` (line 80), so it sorts the category result on
the render after the one that wrote it.

In both files the search step and the category step each start again from
`products` (src/components/ProductList.js:48 and 60; src/components/App.js:22
and 54). Neither narrows the other's result:

- A change of category discards the search filtering.
  `Scenarios.ProductListScenario` shows the necklace listed under the search
  term "ring".
- Typing a search term discards the category filter, although
  `selectedCategory` still holds it. See `ProductList.TypeSearch` and
  `App.TypeSearch`.

This is modelled as written.

A failed fetch is only logged (src/components/ProductList.js:39). `loading`
stays `true`, so the component renders "Loading..." for good
(src/components/ProductList.js:101-103). See `ProductList.FetchSettled`.

## Model

| member | source | states |
|---|---|---|
| Products.Lower | src/components/ProductList.js:49 | `toLowerCase` keeps the length, leaves no upper-case ASCII letter, and maps each upper-case letter to its lower-case letter and every other character to itself |
| Products.IncludesIffOccurs | src/components/ProductList.js:49 | `text.includes(part)` holds exactly when `part` occurs in `text` at some index |
| Products.IncludesEmpty | src/components/ProductList.js:49 | every title includes the empty string |
| Filtering.FilterExact | src/components/ProductList.js:48-50 | `filter` returns an order-preserving subsequence of its input, every element of which the callback accepts, with as many elements as the callback accepts |
| Filtering.FilterMembership | src/components/ProductList.js:48-50 | an element is in the filter result iff it is in the input and accepted |
| Filtering.SubsequenceCountBound | src/components/ProductList.js:48-50 | no subsequence of accepted elements is longer than the number of accepted elements |
| Filtering.FilterUnique | src/components/ProductList.js:48-50 | any sequence that is an accepted-only subsequence of full count is the filter result, so the three facts of `FilterExact` determine it |
| Filtering.FilterAllKept | src/components/ProductList.js:48-50 | a callback that accepts every element returns the input unchanged |
| Filtering.FilterConcat | src/components/ProductList.js:48-50 | filtering a concatenation is the concatenation of the filtered parts |
| Filtering.SearchStageExact | src/components/ProductList.js:47-53 | the search step keeps exactly the products whose lower-cased title includes the lower-cased term, as an order-preserving subsequence whose length is the number of matches |
| Filtering.SearchEmptyTerm | src/components/ProductList.js:48-50 | an empty search term keeps every product, in order |
| Filtering.CategoryStageExact | src/components/ProductList.js:56-66 | "" passes the products through unchanged; any other category keeps exactly the products of that category, in order, as many as there are |
| PriceSort.DirectionOf | src/components/ProductList.js:71-77 | the comparator's ascending branch is taken iff the sort type is "asc", the descending one iff it is "desc" |
| PriceSort.Compare | src/components/ProductList.js:70-78 | ascending: at most 0 iff `a.price <= b.price`; descending: at most 0 iff `b.price <= a.price`; any other type: 0; a positive result means the prices differ |
| PriceSort.SortByPrice | src/components/ProductList.js:70 | the sort returns as many rows as it is given |
| PriceSort.InsertPermutation | src/components/ProductList.js:70 | one insertion step adds its row and keeps every other row (multiset) |
| PriceSort.SortPermutation | src/components/ProductList.js:70 | the sorted rows are a permutation of the input rows |
| PriceSort.InsertOrdered | src/components/ProductList.js:70-78 | inserting into a comparator-ordered sequence keeps it ordered |
| PriceSort.SortOrdered | src/components/ProductList.js:70-78 | the sort result has every adjacent pair in comparator order |
| PriceSort.SingleWithPrice | src/components/ProductList.js:70-78 | the rows of a given price in a one-row list: the row itself or nothing |
| PriceSort.SinglesCommute | src/components/ProductList.js:70-78 | the price groups of two one-row lists of different prices can be taken in either order |
| PriceSort.InsertStable | src/components/ProductList.js:70-78 | an insertion step appends its row behind the rows of the same price and leaves the rows of every other price in order |
| PriceSort.SortStable | src/components/ProductList.js:70-78 | for every price, the rows of that price leave the sort in the order they entered it |
| PriceSort.OrderedPairwise | src/components/ProductList.js:70-78 | in a comparator-ordered sequence every row is in order with every later row |
| PriceSort.SortOrdersPrices | src/components/ProductList.js:71-76 | "asc" yields prices that never decrease along the rows, "desc" prices that never increase |
| PriceSort.OrderedPrefix | src/components/ProductList.js:70-78 | a prefix of an ordered sequence is ordered |
| PriceSort.SortOfOrdered | src/components/ProductList.js:70-78 | rows already in comparator order come out unchanged |
| PriceSort.SortUnordered | src/components/ProductList.js:77 | for any sort type other than "asc" and "desc" the rows come out exactly as they went in |
| PriceSort.SortIdempotent | src/components/App.js:28-39 | sorting the sorted rows again gives the same rows |
| PriceSort.SortKeepsTies | src/components/ProductList.js:70-78 | every group of rows the comparator ties (one price for "asc"/"desc", all rows otherwise) leaves the sort in input order |
| PriceSort.OrderedTail | src/components/ProductList.js:70-78 | dropping the first row of an ordered sequence keeps it ordered |
| PriceSort.FirstComparesBelow | src/components/ProductList.js:70-78 | the first row of an ordered sequence compares at most 0 with every row in it |
| PriceSort.HeadHasClass | src/components/ProductList.js:70-78 | the first row is among the rows of its own price |
| PriceSort.OrderedEqual | src/components/ProductList.js:70-78 | two sequences in "asc" or "desc" order holding the same rows of every price in the same order are equal |
| PriceSort.SortUnique | src/components/ProductList.js:70-78 | any sequence in comparator order that keeps every group of tied input rows in input order is `SortByPrice`, so every conforming engine sort gives that result |
| PriceSort.InsertSplit | src/components/ProductList.js:70 | an insertion places its row behind the last row that does not compare above it, ahead of the rows that all do |
| PriceSort.InsertPlaced | src/components/ProductList.js:70 | the same placement stated row by row |
| PriceSort.InsertAt | src/components/ProductList.js:70 | swapping the row at `i` leftwards past the rows above it turns the prefix up to `i` into the insertion of that row into the sorted prefix, and leaves the rest of the array alone |
| PriceSort.SortStep | src/components/ProductList.js:70 | sorting one more row is inserting it into the sorted prefix |
| PriceSort.SortInPlace | src/components/ProductList.js:70 | sorting the array in place leaves in it exactly the stable price sort of its old contents |
| ProductListView.ResetProperties | src/components/ProductList.js:94-99 | Reset clears the three controls, sets the filtered rows to the products, leaves products, loading and sorted rows alone, and applying it twice equals applying it once |
| ProductListView.ProductList.constructor | src/components/ProductList.js:16-26 | the initial state has empty lists and controls, and `loading` is true |
| ProductListView.ProductList.FetchSettled | src/components/ProductList.js:34-39 | success sets `products` and `filteredProducts` to the fetched rows and clears `loading` in one step; failure changes nothing, so `loading` stays true; no other method writes `loading` |
| ProductListView.ProductList.SearchEffect | src/components/ProductList.js:47-53 | `filteredProducts` becomes the order-preserving subsequence of `products` whose titles match the term; an element is in it iff it is a matching product; an empty term keeps all products |
| ProductListView.ProductList.CategoryEffect | src/components/ProductList.js:56-66 | `filteredProducts` becomes `products` for "" and otherwise exactly the products of the selected category, in order; the search term plays no part |
| ProductListView.ProductList.SortEffect | src/components/ProductList.js:69-80 | `sortedProducts` becomes a permutation of `filteredProducts`, price-ascending for "asc", price-descending for "desc", equal to `filteredProducts` for any other type; `filteredProducts` is not written |
| ProductListView.ProductList.RunEffects | src/components/ProductList.js:47-80 | after the three effects run in declaration order, the filtered rows are the category stage of all products and the sorted rows their price sort, whatever the search term |
| ProductListView.ProductList.TypeSearch | src/components/ProductList.js:47-53 | typing a term, then the search and sort effects: the rows become the search result over all products, sorted, whatever category is selected |
| ProductListView.ProductList.HandleSearch | src/components/ProductList.js:82-84 | the search term becomes the typed value and nothing else changes |
| ProductListView.ProductList.HandleSort | src/components/ProductList.js:86-88 | the sort type becomes the chosen value and nothing else changes |
| ProductListView.ProductList.HandleCategoryChange | src/components/ProductList.js:90-92 | the selected category becomes the chosen value and nothing else changes |
| ProductListView.ProductList.HandleReset | src/components/ProductList.js:94-99 | the three controls become "", `filteredProducts` becomes `products`; `products`, `loading` and `sortedProducts` are untouched |
| ProductListView.ProductList.HandleResetTwice | src/components/ProductList.js:94-99 | pressing Reset twice leaves the state that one press leaves |
| ProductListView.ProductList.ResetShowsAll | src/components/ProductList.js:47-99 | Reset followed by the effects it triggers clears the controls and shows every product, in fetched order, in both `filteredProducts` and `sortedProducts` |
| AppView.ResetProperties | src/components/App.js:61-66 | Reset clears the three controls, sets the filtered rows to the products, leaves the products alone, and applying it twice equals applying it once |
| AppView.App.constructor | src/components/App.js:5-9 | the initial state has empty lists and controls |
| AppView.App.FetchSettled | src/components/App.js:14-18 | success sets `products` and `filteredProducts` to the same fetched rows; failure changes nothing |
| AppView.App.SearchEffect | src/components/App.js:21-26 | `filteredProducts` becomes the order-preserving subsequence of `products` whose titles match the term; an element is in it iff it is a matching product; an empty term keeps all products |
| AppView.App.SortEffect | src/components/App.js:28-39 | `filteredProducts` becomes a permutation of its old value, price-ascending for "asc", price-descending for "desc", its old order for any other type, and a fixed point of the sort step |
| AppView.App.SortEffectTwice | src/components/App.js:28-39 | running the self-feeding sort step twice gives what one run gives |
| AppView.App.TypeSearch | src/components/App.js:21-43 | typing a term, then the search and sort effects: `filteredProducts` becomes the search result over all products, sorted, whatever category is selected |
| AppView.App.HandleSearch | src/components/App.js:41-43 | the search term becomes the typed value and nothing else changes |
| AppView.App.HandleSort | src/components/App.js:45-47 | the sort type becomes the chosen value and nothing else changes |
| AppView.App.HandleCategoryChange | src/components/App.js:49-59 | the selected category becomes the value; `filteredProducts` becomes `products` for "" and otherwise exactly the products of that category, in order, discarding any search filtering |
| AppView.App.HandleReset | src/components/App.js:61-66 | the three controls become "" and `filteredProducts` becomes `products`; `products` is untouched |
| AppView.App.HandleResetTwice | src/components/App.js:61-66 | pressing Reset twice leaves the state that one press leaves |
| AppView.App.ResetShowsAll | src/components/App.js:21-66 | Reset followed by the search and sort effects clears the controls and leaves every product in `filteredProducts`, in fetched order |
| Scenarios.JeweleryAscending | src/components/ProductList.js:56-80 | on the three-row catalog, category "jewelery" sorted "asc" gives the ring, then the necklace |
| Scenarios.LowerTitles | src/components/ProductList.js:49 | the three titles and the term "ring" lower-case as expected |
| Scenarios.ShirtLacksRing | src/components/ProductList.js:49 | "shirt" does not include "ring" |
| Scenarios.NecklaceLacksRing | src/components/ProductList.js:49 | "necklace" does not include "ring" |
| Scenarios.RingVerdicts | src/components/ProductList.js:48-50 | of the three products only the ring matches the search term "ring" |
| Scenarios.SearchRing | src/components/ProductList.js:47-53 | the search step with "ring" keeps only the ring |
| Scenarios.ProductListScenario | src/components/ProductList.js:47-99 | load, search "ring", pick "jewelery" and "asc", run the effects: the table shows the ring and then the necklace, which does not match the search |
| Scenarios.AppScenario | src/components/App.js:21-59 | the same clicks on the other variant leave the ring and then the necklace in `filteredProducts` |

## Left out

- Fetching, the one-second timer and its cleanup, `response.json()` and the `console.log` error sink are I/O. `FetchSettled` takes the settled outcome as a parameter.
- React's effect scheduling, batching and re-rendering are left out. Effects are methods that the caller runs. This also leaves out how often the self-feeding sort effect in `App.js` re-triggers, since it makes a new array each pass.
- The intermediate render after a fetch is left out. Effects of one commit all read that render's state, so in the first pass the sort effect sorts the `filteredProducts` set by the fetch, not the category effect's result. `RunEffects` gives only the state the component settles in.
- Rendering is left out: JSX, the table, the text field, the drop-down widgets, price formatting, image links. `src/components/DropDown.js` and `src/App.js` are presentation only and are not part of this model.
- Products.Lower: only the ASCII letters A to Z are lower-cased. Full Unicode `toLowerCase` (other scripts, special casings that change length) is not modelled.
- Prices are integers. JavaScript numbers with fractions, `NaN` and the floating-point subtraction in the comparator are not modelled. The code only compares prices.
- PriceSort.SortByPrice: the engine's own sort algorithm is not modelled. `Array.prototype.sort` must be stable (ECMA-262, 2019 edition onward). `SortUnique` proves that for this comparator a stable sort has exactly one result, and the stable insertion sort computes it.
- The handlers take the event's `target.value` as a string. The event object itself is not modelled.
