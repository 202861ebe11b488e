/** A worked scenario on a three-row catalog: a shirt at 20, a necklace at 50
    and a ring at 10, the last two in "jewelery". */
module Scenarios {
  import opened Products
  import opened Filtering
  import opened PriceSort
  import ProductListView
  import AppView

  function Shirt(): Product { Product(1, "Shirt", 20, "men's clothing", "") }
  function Necklace(): Product { Product(2, "Necklace", 50, "jewelery", "") }
  function Ring(): Product { Product(3, "Ring", 10, "jewelery", "") }

  function Catalog(): seq<Product> { [Shirt(), Necklace(), Ring()] }

  /** Category "jewelery" sorted "asc" shows the ring before the necklace. */
  lemma {:induction false} JeweleryAscending()
    ensures SortByPrice(CategoryStage(Catalog(), "jewelery"), DirectionOf("asc")) == [Ring(), Necklace()]
  {
    var c := CategoryIs("jewelery");
    assert Filter([Ring()], c) == [Ring()] by {
      assert [Ring()][1..] == [];
    }
    assert Filter([Necklace(), Ring()], c) == [Necklace(), Ring()] by {
      assert [Necklace(), Ring()][1..] == [Ring()];
    }
    assert Filter(Catalog(), c) == [Necklace(), Ring()] by {
      assert Catalog()[1..] == [Necklace(), Ring()];
    }
    assert SortByPrice([Necklace()], Ascending) == [Necklace()] by {
      assert [Necklace()][..0] == [];
    }
    assert [Necklace(), Ring()][..1] == [Necklace()];
    assert Insert([Necklace()], Ring(), Ascending) == [Ring(), Necklace()] by {
      assert [Necklace()][..0] == [];
    }
  }

  lemma LowerTitles()
    ensures Lower("ring") == "ring" && Lower("Ring") == "ring"
    ensures Lower("Shirt") == "shirt" && Lower("Necklace") == "necklace"
  {
    assert Lower("ring") == "ring";
    assert Lower("Ring") == "ring";
    assert Lower("Shirt") == "shirt";
    assert Lower("Necklace") == "necklace";
  }

  lemma ShirtLacksRing()
    ensures !Includes("shirt", "ring")
  {
    assert !Includes("irt", "ring");
    assert "hirt"[..4][0] != "ring"[0];
    assert !Includes("hirt", "ring") by { assert "hirt"[1..] == "irt"; }
    assert "shirt"[..4][0] != "ring"[0];
    assert "shirt"[1..] == "hirt";
  }

  lemma NecklaceLacksRing()
    ensures !Includes("necklace", "ring")
  {
    assert !Includes("ace", "ring");
    assert "lace"[..4][0] != "ring"[0];
    assert !Includes("lace", "ring") by { assert "lace"[1..] == "ace"; }
    assert "klace"[..4][0] != "ring"[0];
    assert !Includes("klace", "ring") by { assert "klace"[1..] == "lace"; }
    assert "cklace"[..4][0] != "ring"[0];
    assert !Includes("cklace", "ring") by { assert "cklace"[1..] == "klace"; }
    assert "ecklace"[..4][0] != "ring"[0];
    assert !Includes("ecklace", "ring") by { assert "ecklace"[1..] == "cklace"; }
    assert "necklace"[..4][0] != "ring"[0];
    assert "necklace"[1..] == "ecklace";
  }

  /** Of the three titles only the ring's includes "ring", ignoring case. */
  lemma RingVerdicts()
    ensures !MatchesSearch(Shirt(), "ring")
    ensures !MatchesSearch(Necklace(), "ring")
    ensures MatchesSearch(Ring(), "ring")
  {
    LowerTitles();
    ShirtLacksRing();
    NecklaceLacksRing();
    assert Includes("ring", "ring");
  }

  /** The search term "ring" alone keeps only the ring. */
  lemma {:induction false} SearchRing()
    ensures SearchStage(Catalog(), "ring") == [Ring()]
  {
    var c := TitleIncludes("ring");
    RingVerdicts();
    assert Filter([Ring()], c) == [Ring()] by {
      assert [Ring()][1..] == [];
    }
    assert Filter([Necklace(), Ring()], c) == [Ring()] by {
      assert [Necklace(), Ring()][1..] == [Ring()];
    }
    assert Catalog()[1..] == [Necklace(), Ring()];
  }

  /** The mounted table: load the catalog, type "ring", pick "jewelery" and
      "asc", and let the effects run. The category effect filters all
      products, so the necklace is shown although its title does not include
      "ring". */
  method ProductListScenario() returns (shown: seq<Product>)
    ensures shown == [Ring(), Necklace()]
    ensures Necklace() in shown && !MatchesSearch(Necklace(), "ring")
  {
    var view := new ProductListView.ProductList();
    view.FetchSettled(Fetched(Catalog()));
    view.HandleSearch("ring");
    view.HandleCategoryChange("jewelery");
    view.HandleSort("asc");
    view.RunEffects();
    JeweleryAscending();
    shown := view.sortedProducts;
    assert shown[1] == Necklace();
    RingVerdicts();
  }

  /** The same clicks on the unmounted variant: its category handler also
      filters all products, discarding the search result, and the sort effect
      writes the sorted rows back. */
  method AppScenario() returns (shown: seq<Product>)
    ensures shown == [Ring(), Necklace()]
  {
    var view := new AppView.App();
    view.FetchSettled(Fetched(Catalog()));
    view.HandleSearch("ring");
    view.SearchEffect();
    view.HandleCategoryChange("jewelery");
    view.HandleSort("asc");
    view.SortEffect();
    JeweleryAscending();
    shown := view.filteredProducts;
  }
}
