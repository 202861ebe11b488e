/** The unmounted variant of the product page (`src/components/App.js`). It
    has no loading flag and no separate sorted list: the sort effect writes
    its sorted copy back into `filteredProducts`, and the category handler
    filters directly instead of leaving that to an effect. */
module AppView {
  import opened Products
  import opened Filtering
  import opened PriceSort

  /** A snapshot of every state slot of the component. */
  datatype AppState = AppState(
    products: seq<Product>,
    filteredProducts: seq<Product>,
    searchTerm: string,
    sortType: string,
    selectedCategory: string)

  /** What the Reset button does to the state. */
  function Reset(st: AppState): AppState {
    st.(searchTerm := "", selectedCategory := "", sortType := "", filteredProducts := st.products)
  }

  /** Reset clears the three controls and shows all products, leaves the
      products alone, and pressing it again changes nothing more. */
  lemma ResetProperties(st: AppState)
    ensures Reset(st).searchTerm == "" && Reset(st).selectedCategory == "" && Reset(st).sortType == ""
    ensures Reset(st).filteredProducts == st.products
    ensures Reset(st).products == st.products
    ensures Reset(Reset(st)) == Reset(st)
  {
  }

  class App {
    var products: seq<Product>
    var filteredProducts: seq<Product>
    var searchTerm: string
    var sortType: string
    var selectedCategory: string

    ghost function State(): AppState
      reads this
    {
      AppState(products, filteredProducts, searchTerm, sortType, selectedCategory)
    }

    /** The initial `useState` values: nothing loaded, all controls empty. */
    constructor ()
      ensures products == [] && filteredProducts == []
      ensures searchTerm == "" && sortType == "" && selectedCategory == ""
    {
      products := [];
      filteredProducts := [];
      searchTerm := "";
      sortType := "";
      selectedCategory := "";
    }

    /** The fetch settles: on success the rows become both `products` and
        `filteredProducts`; on failure the error is only logged. */
    method FetchSettled(outcome: FetchOutcome)
      modifies this`products, this`filteredProducts
      ensures outcome.Fetched? ==> products == outcome.data && filteredProducts == outcome.data
      ensures outcome.FetchFailed? ==> products == old(products) && filteredProducts == old(filteredProducts)
    {
      match outcome
      case Fetched(data) =>
        products := data;
        filteredProducts := data;
      case FetchFailed =>
    }

    /** The search effect: `filteredProducts` becomes the products whose
        lower-cased title includes the lower-cased search term, in their
        original order; an empty term keeps every product. */
    method SearchEffect()
      modifies this`filteredProducts
      ensures filteredProducts == SearchStage(products, searchTerm)
      ensures IsSubsequence(filteredProducts, products)
      ensures forall p :: p in filteredProducts <==> p in products && MatchesSearch(p, searchTerm)
      ensures searchTerm == "" ==> filteredProducts == products
    {
      filteredProducts := SearchStage(products, searchTerm);
      SearchStageExact(products, searchTerm);
      if searchTerm == "" {
        SearchEmptyTerm(products);
      }
    }

    /** The sort effect, which feeds on its own output: a copy of
        `filteredProducts` is sorted in place and written back. The new rows
        are a permutation of the old ones, in price order for "asc" and
        "desc", in their old order for any other sort type; and the step has
        reached a fixed point, so running it again changes nothing. */
    method SortEffect()
      modifies this`filteredProducts
      ensures filteredProducts == SortByPrice(old(filteredProducts), DirectionOf(sortType))
      ensures multiset(filteredProducts) == multiset(old(filteredProducts))
      ensures sortType == "asc" ==>
        forall i, j :: 0 <= i < j < |filteredProducts| ==> filteredProducts[i].price <= filteredProducts[j].price
      ensures sortType == "desc" ==>
        forall i, j :: 0 <= i < j < |filteredProducts| ==> filteredProducts[i].price >= filteredProducts[j].price
      ensures sortType != "asc" && sortType != "desc" ==> filteredProducts == old(filteredProducts)
      ensures SortByPrice(filteredProducts, DirectionOf(sortType)) == filteredProducts
    {
      var rows := filteredProducts;
      var copy := new Product[|rows|](i requires 0 <= i < |rows| => rows[i]);
      assert copy[..] == rows;
      var dir := DirectionOf(sortType);
      SortInPlace(copy, dir);
      filteredProducts := copy[..];
      SortPermutation(rows, dir);
      SortOrdersPrices(rows, dir);
      SortIdempotent(rows, dir);
      if dir == Unordered {
        SortUnordered(rows, dir);
      }
    }

    /** Two passes of the sort effect leave what the first pass left. */
    method SortEffectTwice()
      modifies this`filteredProducts
      ensures filteredProducts == SortByPrice(old(filteredProducts), DirectionOf(sortType))
    {
      SortEffect();
      SortEffect();
    }

    /** Typing into the search box once a category is chosen: the search
        effect, and then the sort effect it triggers, run. The search effect
        filters all products, so the category filter is dropped although
        `selectedCategory` still holds it. */
    method TypeSearch(value: string)
      modifies this`searchTerm, this`filteredProducts
      ensures searchTerm == value && selectedCategory == old(selectedCategory)
      ensures filteredProducts == SortByPrice(SearchStage(products, value), DirectionOf(sortType))
    {
      HandleSearch(value);
      SearchEffect();
      SortEffect();
    }

    /** The search box changed. */
    method HandleSearch(value: string)
      modifies this`searchTerm
      ensures searchTerm == value
    {
      searchTerm := value;
    }

    /** The sort drop-down changed. */
    method HandleSort(value: string)
      modifies this`sortType
      ensures sortType == value
    {
      sortType := value;
    }

    /** The category drop-down changed: the value is stored and
        `filteredProducts` is rebuilt from `products` straight away, which
        throws away any search filtering. "" shows every product; any other
        value keeps exactly the products of that category, in order. */
    method HandleCategoryChange(value: string)
      modifies this`selectedCategory, this`filteredProducts
      ensures selectedCategory == value
      ensures filteredProducts == CategoryStage(products, value)
      ensures value == "" ==> filteredProducts == products
      ensures value != "" ==> IsSubsequence(filteredProducts, products)
      ensures value != "" ==>
        forall p :: p in filteredProducts <==> p in products && p.category == value
    {
      selectedCategory := value;
      if value == "" {
        filteredProducts := products;
      } else {
        filteredProducts := Filter(products, CategoryIs(value));
      }
      CategoryStageExact(products, value);
    }

    /** The Reset button: the three controls go back to "" and every product
        is shown again; `products` is not written. */
    method HandleReset()
      modifies this`searchTerm, this`selectedCategory, this`sortType, this`filteredProducts
      ensures State() == Reset(old(State()))
      ensures searchTerm == "" && selectedCategory == "" && sortType == ""
      ensures filteredProducts == products
    {
      searchTerm := "";
      selectedCategory := "";
      sortType := "";
      filteredProducts := products;
    }

    /** Pressing Reset twice leaves the state the first press left. */
    method HandleResetTwice()
      modifies this`searchTerm, this`selectedCategory, this`sortType, this`filteredProducts
      ensures State() == Reset(old(State()))
    {
      HandleReset();
      HandleReset();
      ResetProperties(old(State()));
    }

    /** Reset and the effects it triggers: `filteredProducts` shows every
        product, in the order they were fetched. */
    method ResetShowsAll()
      modifies this`searchTerm, this`selectedCategory, this`sortType, this`filteredProducts
      ensures searchTerm == "" && selectedCategory == "" && sortType == ""
      ensures filteredProducts == products
    {
      HandleReset();
      SearchEffect();
      SortEffect();
    }
  }
}
