/** The products page (`ProductsPageClient`): the view derived from the fetched
    products and the page state (search text, category, sort mode and the number
    of cards shown), and the handlers that update that state. */
module ProductsPageClient {
  import opened Catalog
  import opened Text
  import Seqs
  import StableSort

  /** Cards per page; `visible` starts here and grows by this much. */
  const PageSize: int := 8

  /** The category value that means "no restriction". */
  const AllCategories: string := "all"

  const LoadFailedMessage: string := "Failed to load products"

  datatype SortMode = Featured | PriceAsc | PriceDesc | TopRated

  /** `clamp(n, min, max) = Math.max(min, Math.min(max, n))`. */
  function Clamp(n: int, lo: int, hi: int): (r: int)
    ensures r >= lo
    ensures lo <= hi ==> r <= hi
    ensures lo <= n <= hi ==> r == n
    ensures n < lo ==> r == lo
    ensures lo <= hi < n ==> r == hi
    ensures hi < lo ==> r == lo
  {
    var m := if hi < n then hi else n;
    if m < lo then lo else m
  }

  /** The search criterion for an already trimmed and lower-cased query `q`. */
  predicate MatchesQuery(p: Product, q: string): (b: bool)
    ensures b <==> || q == []
                   || (exists i :: OccursAt(ToLower(p.title), q, i))
                   || (exists i :: OccursAt(ToLower(p.category), q, i))
                   || (exists i :: OccursAt(ToLower(p.description), q, i))
  {
    ContainsIff(ToLower(p.title), q);
    ContainsIff(ToLower(p.category), q);
    ContainsIff(ToLower(p.description), q);
    || q == []
    || Contains(ToLower(p.title), q)
    || Contains(ToLower(p.category), q)
    || Contains(ToLower(p.description), q)
  }

  /** The category criterion: exact, case-sensitive comparison. */
  predicate MatchesCategory(p: Product, category: string): (b: bool)
    ensures category == AllCategories ==> b
    ensures category != AllCategories ==> (b <==> p.category == category)
  {
    category == AllCategories || p.category == category
  }

  /** Both criteria, with the query trimmed and lower-cased first (line 100). */
  predicate Passes(p: Product, query: string, category: string): (b: bool)
    ensures AllWhitespace(query) ==> (b <==> MatchesCategory(p, category))
  {
    TrimEmptyIff(query);
    MatchesQuery(p, ToLower(Trim(query))) && MatchesCategory(p, category)
  }

  /** The filter stage of `filtered`: the products meeting both criteria, each copy
      kept, in source order. */
  function Kept(products: seq<Product>, query: string, category: string): (r: seq<Product>)
    ensures forall p :: p in r <==> p in products && Passes(p, query, category)
    ensures forall p :: multiset(r)[p] == if Passes(p, query, category) then multiset(products)[p] else 0
    ensures Seqs.Subsequence(r, products)
  {
    var keep := (p: Product) => Passes(p, query, category);
    Seqs.FilterIsSubsequence(products, keep);
    Seqs.FilterCount(products, keep);
    Seqs.Filter(products, keep)
  }

  /** The comparator of line 116. */
  function RatingDescending(a: Product, b: Product): (r: real)
    ensures r <= 0.0 <==> RateOf(a) >= RateOf(b)
  {
    RateOf(b) - RateOf(a)
  }

  /** `filtered`: the kept products, sorted on a copy for every mode but `Featured`. */
  function FilterAndSort(products: seq<Product>, query: string, category: string, sort: SortMode)
    : (r: seq<Product>)
    ensures multiset(r) == multiset(Kept(products, query, category))
    ensures sort == Featured ==> r == Kept(products, query, category)
  {
    var kept := Kept(products, query, category);
    match sort
    case Featured => kept
    case PriceAsc => StableSort.SortBy(kept, PriceAscending)
    case PriceDesc => StableSort.SortBy(kept, PriceDescending)
    case TopRated => StableSort.SortBy(kept, RatingDescending)
  }

  /** `filtered.slice(0, visible)`. */
  function Shown(filtered: seq<Product>, visible: nat): (r: seq<Product>)
    ensures |r| == if visible < |filtered| then visible else |filtered|
    ensures r <= filtered
  {
    if visible < |filtered| then filtered[..visible] else filtered
  }

  /** `canLoadMore = shown.length < filtered.length`. */
  function CanLoadMore(filtered: seq<Product>, visible: nat): (r: bool)
    ensures r <==> visible < |filtered|
  {
    |Shown(filtered, visible)| < |filtered|
  }

  /** `categories = ["all", ...new Set(products.map(p => p.category))]`. */
  function Categories(products: seq<Product>): (r: seq<string>)
    ensures |r| >= 1 && r[0] == AllCategories
    ensures Seqs.NoDuplicates(r[1..])
    ensures forall c :: c in r[1..] <==> c in CategoriesOf(products)
  {
    [AllCategories] + Seqs.Distinct(CategoriesOf(products))
  }

  /** After "all", the categories come in the order they first appear in `products`. */
  lemma CategoriesInFirstAppearanceOrder(products: seq<Product>)
    ensures var r := Categories(products)[1..];
      forall i, j :: 0 <= i < j < |r| ==>
        Seqs.FirstIndex(CategoriesOf(products), r[i]) < Seqs.FirstIndex(CategoriesOf(products), r[j])
  {
    var cs := CategoriesOf(products);
    assert Categories(products)[1..] == Seqs.Distinct(cs);
    Seqs.DistinctFirstAppearance(cs);
  }

  /** Default filters show every product in source order. */
  lemma DefaultViewIsEverything(products: seq<Product>)
    ensures FilterAndSort(products, "", AllCategories, Featured) == products
  {
    var keep := (p: Product) => Passes(p, "", AllCategories);
    Seqs.FilterAllPass(products, keep);
  }

  /** A query of white space alone is the empty query. */
  lemma WhitespaceQueryIsEmpty(products: seq<Product>, query: string, category: string)
    requires AllWhitespace(query)
    ensures Kept(products, query, category) == Kept(products, "", category)
  {
    TrimEmptyIff(query);
    TrimEmptyIff("");
    Seqs.FilterAgree(products, (p: Product) => Passes(p, query, category),
                     (p: Product) => Passes(p, "", category));
  }

  /** Selecting a category no product has, other than "all", shows nothing. */
  lemma UnknownCategoryIsEmpty(products: seq<Product>, query: string, category: string, sort: SortMode)
    requires category != AllCategories
    requires forall p :: p in products ==> p.category != category
    ensures FilterAndSort(products, query, category, sort) == []
  {
    var kept := Kept(products, query, category);
    assert multiset(kept) == multiset{};
  }

  /** "price-asc": non-decreasing price, and products of equal price keep their
      filtered order. */
  lemma PriceAscView(products: seq<Product>, query: string, category: string)
    ensures var r := FilterAndSort(products, query, category, PriceAsc);
      && (forall i, j :: 0 <= i < j < |r| ==> r[i].price <= r[j].price)
      && (forall e :: StableSort.Ties(r, e, PriceAscending)
                      == StableSort.Ties(Kept(products, query, category), e, PriceAscending))
  {
    var kept := Kept(products, query, category);
    var r := FilterAndSort(products, query, category, PriceAsc);
    assert r == StableSort.SortBy(kept, PriceAscending);
    PriceComparatorsConsistent();
    StableSort.SortOrderedAndStable(kept, PriceAscending);
    forall i, j | 0 <= i < j < |r| ensures r[i].price <= r[j].price {
      assert PriceAscending(r[i], r[j]) <= 0.0;
    }
  }

  /** "price-desc": non-increasing price, and products of equal price keep their
      filtered order. */
  lemma PriceDescView(products: seq<Product>, query: string, category: string)
    ensures var r := FilterAndSort(products, query, category, PriceDesc);
      && (forall i, j :: 0 <= i < j < |r| ==> r[i].price >= r[j].price)
      && (forall e :: StableSort.Ties(r, e, PriceDescending)
                      == StableSort.Ties(Kept(products, query, category), e, PriceDescending))
  {
    var kept := Kept(products, query, category);
    var r := FilterAndSort(products, query, category, PriceDesc);
    assert r == StableSort.SortBy(kept, PriceDescending);
    PriceComparatorsConsistent();
    StableSort.SortOrderedAndStable(kept, PriceDescending);
    forall i, j | 0 <= i < j < |r| ensures r[i].price >= r[j].price {
      assert PriceDescending(r[i], r[j]) <= 0.0;
    }
  }

  /** "rating": non-increasing rate with a missing rating read as 0, and products
      of equal rate keep their filtered order. */
  lemma TopRatedView(products: seq<Product>, query: string, category: string)
    ensures var r := FilterAndSort(products, query, category, TopRated);
      && (forall i, j :: 0 <= i < j < |r| ==> RateOf(r[i]) >= RateOf(r[j]))
      && (forall e :: StableSort.Ties(r, e, RatingDescending)
                      == StableSort.Ties(Kept(products, query, category), e, RatingDescending))
  {
    var kept := Kept(products, query, category);
    var r := FilterAndSort(products, query, category, TopRated);
    assert r == StableSort.SortBy(kept, RatingDescending);
    StableSort.SortOrderedAndStable(kept, RatingDescending);
    forall i, j | 0 <= i < j < |r| ensures RateOf(r[i]) >= RateOf(r[j]) {
      assert RatingDescending(r[i], r[j]) <= 0.0;
    }
  }

  /** Whatever the sort mode, the view holds exactly the kept products (unrated
      ones included), so it is never longer than the product list. */
  lemma ViewHoldsKept(products: seq<Product>, query: string, category: string, sort: SortMode)
    ensures var r := FilterAndSort(products, query, category, sort);
      && (forall p :: p in r <==> p in products && Passes(p, query, category))
      && |r| <= |products|
  {
    var kept := Kept(products, query, category);
    var r := FilterAndSort(products, query, category, sort);
    assert |r| == |multiset(r)| == |multiset(kept)| == |kept|;
    forall p ensures p in r <==> p in kept {
      assert p in r <==> p in multiset(r);
      assert p in kept <==> p in multiset(kept);
    }
  }

  /** How one run of `loadProducts` ended: the parsed body (`None` when it is not an
      array), a thrown error with its optional message, or an abort. */
  datatype LoadOutcome = Loaded(data: Option<seq<Product>>) | Failed(message: Option<string>) | Aborted

  /** The page's state hooks. `visible` never drops below one page. */
  class PageState {
    var products: seq<Product>
    var loading: bool
    var error: Option<string>
    var query: string
    var category: string
    var sort: SortMode
    var visible: int

    ghost predicate Valid()
      reads this
    {
      visible >= PageSize
    }

    /** The initial `useState` values. */
    constructor ()
      ensures Valid()
      ensures products == [] && loading && error == None
      ensures query == "" && category == AllCategories && sort == Featured && visible == PageSize
    {
      products, loading, error := [], true, None;
      query, category, sort, visible := "", AllCategories, Featured, PageSize;
    }

    /** `filtered` for the current state. */
    function View(): (r: seq<Product>)
      reads this
      ensures forall p :: p in r <==> p in products && Passes(p, query, category)
      ensures |r| <= |products|
    {
      ViewHoldsKept(products, query, category, sort);
      FilterAndSort(products, query, category, sort)
    }

    /** `canLoadMore` for the current state. */
    function LoadMoreOffered(): (r: bool)
      reads this
      requires Valid()
      ensures r <==> visible < |View()|
    {
      CanLoadMore(View(), visible)
    }

    /** The search box's `onChange`: new query, back to the first page. */
    method SetQuery(q: string)
      modifies this`query, this`visible
      ensures Valid() && query == q && visible == PageSize
    {
      query := q;
      visible := PageSize;
    }

    /** The category select's `onChange`. */
    method SetCategory(c: string)
      modifies this`category, this`visible
      ensures Valid() && category == c && visible == PageSize
    {
      category := c;
      visible := PageSize;
    }

    /** The sort select's `onChange`. */
    method SetSort(s: SortMode)
      modifies this`sort, this`visible
      ensures Valid() && sort == s && visible == PageSize
    {
      sort := s;
      visible := PageSize;
    }

    /** "View Top". */
    method ViewTop()
      modifies this`visible
      ensures Valid() && visible == PageSize
    {
      visible := PageSize;
    }

    /** `resetFilters`: every control back to its default, back to the first page. */
    method ResetFilters()
      modifies this`query, this`category, this`sort, this`visible
      ensures Valid()
      ensures query == "" && category == AllCategories && sort == Featured && visible == PageSize
      ensures View() == products
    {
      query, category, sort := "", AllCategories, Featured;
      visible := PageSize;
      DefaultViewIsEverything(products);
      assert View() == FilterAndSort(products, "", AllCategories, Featured);
    }

    /** "Load more": `setVisible(v => clamp(v + 8, 8, filtered.length))`. When the
        button is offered the count grows by a page, up to the end of the view. */
    method LoadMore()
      requires Valid()
      modifies this`visible
      ensures Valid()
      ensures visible == Clamp(old(visible) + PageSize, PageSize, |View()|)
      ensures old(LoadMoreOffered()) ==> old(visible) < visible <= |View()|
      ensures old(LoadMoreOffered()) ==>
        visible == if old(visible) + PageSize < |View()| then old(visible) + PageSize else |View()|
    {
      visible := Clamp(visible + PageSize, PageSize, |View()|);
    }

    /** The start of `loadProducts`. */
    method BeginLoad()
      modifies this`loading, this`error
      ensures loading && error == None
    {
      loading, error := true, None;
    }

    /** The end of `loadProducts`: on success the products are replaced and the
        view goes back to the first page; on failure the products are dropped and
        the message kept; an abort only clears `loading` (the `finally` block). */
    method FinishLoad(outcome: LoadOutcome)
      modifies this`products, this`error, this`visible, this`loading
      ensures !loading
      ensures outcome.Loaded? ==>
        && products == (if outcome.data.Some? then outcome.data.value else [])
        && visible == PageSize && error == old(error)
      ensures outcome.Failed? ==>
        && products == [] && visible == old(visible)
        && error == Some(if outcome.message.Some? then outcome.message.value else LoadFailedMessage)
        && Categories(products) == [AllCategories]
      ensures outcome.Aborted? ==>
        products == old(products) && error == old(error) && visible == old(visible)
      ensures old(Valid()) ==> Valid()
    {
      match outcome {
        case Loaded(data) =>
          products := if data.Some? then data.value else [];
          visible := PageSize;
        case Failed(message) =>
          products := [];
          error := Some(if message.Some? then message.value else LoadFailedMessage);
          assert Seqs.Distinct(CategoriesOf(products)) == [];
        case Aborted =>
      }
      loading := false;
    }
  }
}
