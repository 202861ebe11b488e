/** The mounted product table (`src/components/ProductList.js`): its state
    slots, the step that stores the fetched rows, the three derivation effects
    and the four event handlers. Each effect is a method the caller runs
    explicitly; when React would run it is not part of the model. */
module ProductListView {
  import opened Products
  import opened Filtering
  import opened PriceSort

  /** A snapshot of every state slot of the component. */
  datatype ListState = ListState(
    products: seq<Product>,
    searchTerm: string,
    sortType: string,
    selectedCategory: string,
    loading: bool,
    filteredProducts: seq<Product>,
    sortedProducts: seq<Product>)

  /** What the Reset button does to the state. */
  function Reset(st: ListState): ListState {
    st.(searchTerm := "", selectedCategory := "", sortType := "", filteredProducts := st.products)
  }

  /** Reset clears the three controls, shows all products, leaves the products,
      the loading flag and the sorted rows alone, and pressing it again changes
      nothing more. */
  lemma ResetProperties(st: ListState)
    ensures Reset(st).searchTerm == "" && Reset(st).selectedCategory == "" && Reset(st).sortType == ""
    ensures Reset(st).filteredProducts == st.products
    ensures Reset(st).products == st.products && Reset(st).loading == st.loading
    ensures Reset(st).sortedProducts == st.sortedProducts
    ensures Reset(Reset(st)) == Reset(st)
  {
  }

  class ProductList {
    var products: seq<Product>
    var searchTerm: string
    var sortType: string
    var selectedCategory: string
    var loading: bool
    var filteredProducts: seq<Product>
    var sortedProducts: seq<Product>

    ghost function State(): ListState
      reads this
    {
      ListState(products, searchTerm, sortType, selectedCategory, loading, filteredProducts, sortedProducts)
    }

    /** The initial `useState` values: nothing loaded yet, all controls empty,
        and the loading flag up. */
    constructor ()
      ensures products == [] && filteredProducts == [] && sortedProducts == []
      ensures searchTerm == "" && sortType == "" && selectedCategory == ""
      ensures loading
    {
      products := [];
      searchTerm := "";
      sortType := "";
      selectedCategory := "";
      loading := true;
      filteredProducts := [];
      sortedProducts := [];
    }

    /** The fetch settles. On success the rows become both `products` and
        `filteredProducts` and the loading flag drops, all in one step; on
        failure the error is only logged and no slot changes, so the flag
        stays up. This is the only method that writes `loading`. */
    method FetchSettled(outcome: FetchOutcome)
      modifies this`products, this`filteredProducts, this`loading
      ensures outcome.Fetched? ==>
        products == outcome.data && filteredProducts == outcome.data && !loading
      ensures outcome.FetchFailed? ==>
        products == old(products) && filteredProducts == old(filteredProducts) && loading == old(loading)
    {
      match outcome
      case Fetched(data) =>
        products := data;
        filteredProducts := data;
        loading := false;
      case FetchFailed =>
    }

    /** The search effect: `filteredProducts` becomes the products whose
        lower-cased title includes the lower-cased search term, in their
        original order; an empty term keeps every product. */
    method SearchEffect()
      modifies this`filteredProducts
      ensures filteredProducts == SearchStage(products, searchTerm)
      ensures IsSubsequence(filteredProducts, products)
      ensures forall p :: p in filteredProducts <==> p in products && MatchesSearch(p, searchTerm)
      ensures searchTerm == "" ==> filteredProducts == products
    {
      filteredProducts := SearchStage(products, searchTerm);
      SearchStageExact(products, searchTerm);
      if searchTerm == "" {
        SearchEmptyTerm(products);
      }
    }

    /** The category effect. It filters `products`, not the search result, so
        whatever the search effect wrote is replaced and the search term has no
        say in the outcome. */
    method CategoryEffect()
      modifies this`filteredProducts
      ensures filteredProducts == CategoryStage(products, selectedCategory)
      ensures selectedCategory == "" ==> filteredProducts == products
      ensures selectedCategory != "" ==> IsSubsequence(filteredProducts, products)
      ensures selectedCategory != "" ==>
        forall p :: p in filteredProducts <==> p in products && p.category == selectedCategory
    {
      filteredProducts := CategoryStage(products, selectedCategory);
      CategoryStageExact(products, selectedCategory);
    }

    /** The sort effect: a copy of `filteredProducts` is sorted in place and
        stored as `sortedProducts`. The copy is a permutation of the filtered
        rows, in price order for "asc" and "desc", in the filtered order for any
        other sort type; `filteredProducts` itself is not written. */
    method SortEffect()
      modifies this`sortedProducts
      ensures sortedProducts == SortByPrice(filteredProducts, DirectionOf(sortType))
      ensures multiset(sortedProducts) == multiset(filteredProducts)
      ensures sortType == "asc" ==>
        forall i, j :: 0 <= i < j < |sortedProducts| ==> sortedProducts[i].price <= sortedProducts[j].price
      ensures sortType == "desc" ==>
        forall i, j :: 0 <= i < j < |sortedProducts| ==> sortedProducts[i].price >= sortedProducts[j].price
      ensures sortType != "asc" && sortType != "desc" ==> sortedProducts == filteredProducts
    {
      var rows := filteredProducts;
      var copy := new Product[|rows|](i requires 0 <= i < |rows| => rows[i]);
      assert copy[..] == rows;
      var dir := DirectionOf(sortType);
      SortInPlace(copy, dir);
      sortedProducts := copy[..];
      SortPermutation(rows, dir);
      SortOrdersPrices(rows, dir);
      if dir == Unordered {
        SortUnordered(rows, dir);
      }
    }

    /** The three effects in declaration order, each reading the state the
        one before it left. This is the state the component settles in once
        `products` has changed: the search and category effects depend on
        `products`, and the sort effect on the `filteredProducts` they write.
        The category effect overwrites the search result, so the table shows
        the category filter of all products, sorted. */
    method RunEffects()
      modifies this`filteredProducts, this`sortedProducts
      ensures filteredProducts == CategoryStage(products, selectedCategory)
      ensures sortedProducts == SortByPrice(CategoryStage(products, selectedCategory), DirectionOf(sortType))
    {
      SearchEffect();
      CategoryEffect();
      SortEffect();
    }

    /** Typing into the search box once a category is chosen: the search
        effect, and then the sort effect it triggers, run. The search effect
        filters all products, so the category filter is dropped although
        `selectedCategory` still holds it. */
    method TypeSearch(value: string)
      modifies this`searchTerm, this`filteredProducts, this`sortedProducts
      ensures searchTerm == value && selectedCategory == old(selectedCategory)
      ensures filteredProducts == SearchStage(products, value)
      ensures sortedProducts == SortByPrice(SearchStage(products, value), DirectionOf(sortType))
    {
      HandleSearch(value);
      SearchEffect();
      SortEffect();
    }

    /** The search box changed. */
    method HandleSearch(value: string)
      modifies this`searchTerm
      ensures searchTerm == value
    {
      searchTerm := value;
    }

    /** The sort drop-down changed. */
    method HandleSort(value: string)
      modifies this`sortType
      ensures sortType == value
    {
      sortType := value;
    }

    /** The category drop-down changed; only the control value is stored, the
        category effect does the filtering. */
    method HandleCategoryChange(value: string)
      modifies this`selectedCategory
      ensures selectedCategory == value
    {
      selectedCategory := value;
    }

    /** The Reset button: the three controls go back to "" and every product
        is shown again; `products`, `loading` and `sortedProducts` are not
        written. */
    method HandleReset()
      modifies this`searchTerm, this`selectedCategory, this`sortType, this`filteredProducts
      ensures State() == Reset(old(State()))
      ensures searchTerm == "" && selectedCategory == "" && sortType == ""
      ensures filteredProducts == products
    {
      searchTerm := "";
      selectedCategory := "";
      sortType := "";
      filteredProducts := products;
    }

    /** Pressing Reset twice leaves the state the first press left. */
    method HandleResetTwice()
      modifies this`searchTerm, this`selectedCategory, this`sortType, this`filteredProducts
      ensures State() == Reset(old(State()))
    {
      HandleReset();
      HandleReset();
      ResetProperties(old(State()));
    }

    /** Reset and the effects it triggers: the table shows every product, in
        the order they were fetched. */
    method ResetShowsAll()
      modifies this`searchTerm, this`selectedCategory, this`sortType, this`filteredProducts, this`sortedProducts
      ensures searchTerm == "" && selectedCategory == "" && sortType == ""
      ensures filteredProducts == products && sortedProducts == products
    {
      HandleReset();
      RunEffects();
      SortUnordered(products, Unordered);
    }
  }
}
