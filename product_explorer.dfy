/** The explorer view (`ProductExplorer`): a title-only search, a category, a
    favourites-only switch and three sort modes over a product list, plus the
    sorted category list of its select box. The search text is the one already
    debounced by the caller. */
module ProductExplorer {
  import opened Catalog
  import opened Text
  import Seqs
  import StableSort

  /** The category value that means "no restriction". */
  const AllCategories: string := "All"

  datatype SortMode = Relevance | PriceAsc | PriceDesc

  /** `normalize(s) = s.trim().toLowerCase()`. */
  function Normalize(s: string): (r: string)
    ensures |r| <= |s|
    ensures r == [] || (!IsWhitespace(r[0]) && !IsWhitespace(r[|r| - 1]))
  {
    ToLower(Trim(s))
  }

  /** A query normalizes to nothing exactly when it is all white space. */
  lemma NormalizeEmptyIff(s: string)
    ensures Normalize(s) == [] <==> AllWhitespace(s)
  {
    TrimEmptyIff(s);
  }

  /** Normalizing twice is normalizing once. */
  lemma NormalizeIdempotent(s: string)
    ensures Normalize(Normalize(s)) == Normalize(s)
  {
    var t := Trim(s);
    var n := ToLower(t);
    if n != [] {
      assert TrimStart(n) == n;
      assert TrimEnd(n) == n;
    }
    ToLowerIdempotent(t);
  }

  /** The predicate of lines 37-42 for the normalized query `q`. */
  predicate Keeps(p: Product, q: string, category: string, favoritesOnly: bool, favoriteSet: set<real>)
    : (b: bool)
    ensures b <==> && (category == AllCategories || p.category == category)
                   && (q == [] || exists i :: OccursAt(Normalize(p.title), q, i))
                   && (!favoritesOnly || p.id in favoriteSet)
  {
    ContainsIff(Normalize(p.title), q);
    && (category == AllCategories || p.category == category)
    && (|q| == 0 || Contains(Normalize(p.title), q))
    && (!favoritesOnly || p.id in favoriteSet)
  }

  /** The filter stage of `filtered`: every product meeting the three criteria,
      each copy kept, in source order. */
  function Kept(products: seq<Product>, query: string, category: string,
                favoritesOnly: bool, favoriteSet: set<real>): (r: seq<Product>)
    ensures forall p :: p in r <==>
      p in products && Keeps(p, Normalize(query), category, favoritesOnly, favoriteSet)
    ensures forall p :: multiset(r)[p] ==
                        if Keeps(p, Normalize(query), category, favoritesOnly, favoriteSet)
                        then multiset(products)[p] else 0
    ensures Seqs.Subsequence(r, products)
  {
    var keep := (p: Product) => Keeps(p, Normalize(query), category, favoritesOnly, favoriteSet);
    Seqs.FilterIsSubsequence(products, keep);
    Seqs.FilterCount(products, keep);
    Seqs.Filter(products, keep)
  }

  /** `filtered`: the kept products, sorted on a copy by price unless `Relevance`. */
  function FilterAndSort(products: seq<Product>, query: string, category: string,
                         favoritesOnly: bool, favoriteSet: set<real>, sort: SortMode): (r: seq<Product>)
    ensures multiset(r) == multiset(Kept(products, query, category, favoritesOnly, favoriteSet))
    ensures sort == Relevance ==> r == Kept(products, query, category, favoritesOnly, favoriteSet)
  {
    var kept := Kept(products, query, category, favoritesOnly, favoriteSet);
    match sort
    case Relevance => kept
    case PriceAsc => StableSort.SortBy(kept, PriceAscending)
    case PriceDesc => StableSort.SortBy(kept, PriceDescending)
  }

  /** Whatever the sort mode, the view holds exactly the kept products, so
      "Showing n of m" never has n above m. */
  lemma ViewHoldsKept(products: seq<Product>, query: string, category: string,
                      favoritesOnly: bool, favoriteSet: set<real>, sort: SortMode)
    ensures var r := FilterAndSort(products, query, category, favoritesOnly, favoriteSet, sort);
      && (forall p :: p in r <==>
            p in products && Keeps(p, Normalize(query), category, favoritesOnly, favoriteSet))
      && |r| <= |products|
  {
    var kept := Kept(products, query, category, favoritesOnly, favoriteSet);
    var r := FilterAndSort(products, query, category, favoritesOnly, favoriteSet, sort);
    assert |r| == |multiset(r)| == |multiset(kept)| == |kept|;
    forall p ensures p in r <==> p in kept {
      assert p in r <==> p in multiset(r);
      assert p in kept <==> p in multiset(kept);
    }
  }

  /** With the switch off, the favourite set does not affect the view. */
  lemma FavoritesIgnoredWhenOff(products: seq<Product>, query: string, category: string,
                                fav1: set<real>, fav2: set<real>, sort: SortMode)
    ensures FilterAndSort(products, query, category, false, fav1, sort)
         == FilterAndSort(products, query, category, false, fav2, sort)
  {
    Seqs.FilterAgree(products,
      (p: Product) => Keeps(p, Normalize(query), category, false, fav1),
      (p: Product) => Keeps(p, Normalize(query), category, false, fav2));
  }

  /** A query of white space alone matches every title. */
  lemma WhitespaceQueryIsEmpty(products: seq<Product>, query: string, category: string,
                               favoritesOnly: bool, favoriteSet: set<real>)
    requires AllWhitespace(query)
    ensures Kept(products, query, category, favoritesOnly, favoriteSet)
         == Kept(products, "", category, favoritesOnly, favoriteSet)
  {
    NormalizeEmptyIff(query);
    NormalizeEmptyIff("");
    Seqs.FilterAgree(products,
      (p: Product) => Keeps(p, Normalize(query), category, favoritesOnly, favoriteSet),
      (p: Product) => Keeps(p, Normalize(""), category, favoritesOnly, favoriteSet));
  }

  /** "price-asc": non-decreasing price; equal prices keep their filtered order. */
  lemma PriceAscView(products: seq<Product>, query: string, category: string,
                     favoritesOnly: bool, favoriteSet: set<real>)
    ensures var r := FilterAndSort(products, query, category, favoritesOnly, favoriteSet, PriceAsc);
      && (forall i, j :: 0 <= i < j < |r| ==> r[i].price <= r[j].price)
      && (forall e :: StableSort.Ties(r, e, PriceAscending) == StableSort.Ties(
            Kept(products, query, category, favoritesOnly, favoriteSet), e, PriceAscending))
  {
    var kept := Kept(products, query, category, favoritesOnly, favoriteSet);
    var r := FilterAndSort(products, query, category, favoritesOnly, favoriteSet, PriceAsc);
    assert r == StableSort.SortBy(kept, PriceAscending);
    PriceComparatorsConsistent();
    StableSort.SortOrderedAndStable(kept, PriceAscending);
    forall i, j | 0 <= i < j < |r| ensures r[i].price <= r[j].price {
      assert PriceAscending(r[i], r[j]) <= 0.0;
    }
  }

  /** "price-desc": non-increasing price; equal prices keep their filtered order. */
  lemma PriceDescView(products: seq<Product>, query: string, category: string,
                      favoritesOnly: bool, favoriteSet: set<real>)
    ensures var r := FilterAndSort(products, query, category, favoritesOnly, favoriteSet, PriceDesc);
      && (forall i, j :: 0 <= i < j < |r| ==> r[i].price >= r[j].price)
      && (forall e :: StableSort.Ties(r, e, PriceDescending) == StableSort.Ties(
            Kept(products, query, category, favoritesOnly, favoriteSet), e, PriceDescending))
  {
    var kept := Kept(products, query, category, favoritesOnly, favoriteSet);
    var r := FilterAndSort(products, query, category, favoritesOnly, favoriteSet, PriceDesc);
    assert r == StableSort.SortBy(kept, PriceDescending);
    PriceComparatorsConsistent();
    StableSort.SortOrderedAndStable(kept, PriceDescending);
    forall i, j | 0 <= i < j < |r| ensures r[i].price >= r[j].price {
      assert PriceDescending(r[i], r[j]) <= 0.0;
    }
  }

  /** The collecting loop of line 24: every category is added to a `Set`, which
      keeps one copy of each in order of first insertion. */
  method CollectCategories(products: seq<Product>) returns (uniq: seq<string>)
    ensures uniq == Seqs.Distinct(CategoriesOf(products))
  {
    var cs := CategoriesOf(products);
    uniq := [];
    for i := 0 to |products|
      invariant uniq == Seqs.Distinct(cs[..i])
    {
      var c := products[i].category;
      assert cs[..i + 1][..i] == cs[..i];
      if c !in uniq {
        uniq := uniq + [c];
      }
    }
    assert cs[..|products|] == cs;
  }

  /** `categories`: "All", then every category once, ordered by `localeCompare`
      (passed in, since it depends on the locale). */
  function Categories(products: seq<Product>, localeCompare: (string, string) -> real): (r: seq<string>)
    ensures |r| >= 1 && r[0] == AllCategories
    ensures Seqs.NoDuplicates(r[1..])
    ensures forall c :: c in r[1..] <==> c in CategoriesOf(products)
  {
    var uniq := Seqs.Distinct(CategoriesOf(products));
    var sorted := StableSort.SortBy(uniq, localeCompare);
    Seqs.NoDuplicatesPermutation(uniq, sorted);
    assert forall c :: c in sorted <==> c in multiset(uniq);
    assert ([AllCategories] + sorted)[1..] == sorted;
    [AllCategories] + sorted
  }

  /** For a consistent `localeCompare` the categories after "All" are in its order. */
  lemma CategoriesSorted(products: seq<Product>, localeCompare: (string, string) -> real)
    requires StableSort.ConsistentComparator(localeCompare)
    ensures StableSort.Sorted(Categories(products, localeCompare)[1..], localeCompare)
  {
    var uniq := Seqs.Distinct(CategoriesOf(products));
    StableSort.SortSorted(uniq, localeCompare);
    assert Categories(products, localeCompare)[1..] == StableSort.SortBy(uniq, localeCompare);
  }
}
