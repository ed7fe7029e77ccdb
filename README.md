# Product explorer: view engines and favourites store

A Dafny model of the three pieces of sequential logic in the product-explorer
web app:

- **The products page** (`app/products/ui/ProductsPageClient.tsx`). From the
  fetched products and the page state (search text, category, sort mode and
  the number of cards shown), it derives:
  - the filtered and sorted list;
  - the category list;
  - the visible prefix, and whether "Load more" is offered.

  Its handlers update that state. The pure parts are functions over `seq`. The
  state is the class `ProductsPageClient.PageState`, whose methods are the
  handlers and the end of `loadProducts`.
- **The explorer view** (`components/ProductExplorer.tsx`). A second filter and
  sort:
  - the search matches the title only;
  - a favourites-only switch;
  - relevance and price sort modes;
  - a category list sorted with `localeCompare`.

  All of it is pure. The only loop, which collects the categories into a `Set`,
  is a method proved against the function that specifies it.
- **The favourites hook** (`hooks/useFavorites.ts`). It keeps a list of ids in
  memory and writes it into one local-storage slot after every change. It
  includes the defensive loader `readIds`. The list and the slot are the two
  fields of the class `UseFavorites.FavoritesStore`.

Shared pieces:

- `Text`: `trim`, `toLowerCase` and `includes` on strings.
- `Seqs`: `filter`, the insertion-ordered contents of a `Set`, and
  subsequences.
- `StableSort`: `Array.prototype.sort` with a comparator. Section 23.1.3.30 of
  ECMA-262 requires this sort to be stable. The model is a stable insertion
  sort; for a consistent comparator it is proved sorted, a permutation and
  stable.
- `Catalog`: the product record and the comparators that both views share.

Modelling choices:

- JavaScript numbers (prices, rates, ids) are `real`. The favourites loader
  models the non-finite numbers as `NonFinite`, because it drops them.
- Sorting always happens on a copy, and every view is a function of its
  inputs, so no input list is ever changed.
- Two behaviours of the code that the model keeps as written:
  - `visible` can exceed the length of the filtered list, for example when
    fewer than 8 products match. Only the value set by "Load more" is bounded
    by it.
  - Toggling an id that is present, twice, restores its membership but moves
    it to the end of the list. The stored encoding need not be the original
    one; it is whenever the id occurred once, last. The exact round trip holds
    for every id that was absent.

## Model

| member | source | states |
|---|---|---|
| Text.IsWhitespace | components/ProductExplorer.tsx:16 | the code points `trim` strips: exactly the ECMAScript WhiteSpace and LineTerminator code points |
| Text.TrimStart | components/ProductExplorer.tsx:16 | the result is a suffix of the input; everything cut off is white space; the result does not start with white space |
| Text.TrimEnd | components/ProductExplorer.tsx:16 | the result is a prefix of the input; everything cut off is white space; the result does not end with white space |
| Text.Trim | components/ProductExplorer.tsx:16 | `trim` returns a slice of the input with only white space on either side, and neither end of it is white space |
| Text.TrimEmptyIff | app/products/ui/ProductsPageClient.tsx:100-104 | a trimmed query is empty exactly when the query is all white space |
| Text.LowerChar | components/ProductExplorer.tsx:16 | ASCII capitals map to their lower-case letter; everything else is unchanged; no capital remains; a character stays white space or not |
| Text.ToLower | components/ProductExplorer.tsx:16 | `toLowerCase` keeps the length and lower-cases each character in place |
| Text.ToLowerIdempotent | components/ProductExplorer.tsx:16 | lower-casing twice is lower-casing once |
| Text.Contains | app/products/ui/ProductsPageClient.tsx:105-107 | `includes`: a prefix is always included, and a string never includes anything longer than itself |
| Text.ContainsIff | app/products/ui/ProductsPageClient.tsx:105-107 | `includes` holds exactly when the substring occurs at some position |
| Text.ContainsEmpty | app/products/ui/ProductsPageClient.tsx:104-107 | every string includes the empty string |
| Seqs.Filter | app/products/ui/ProductsPageClient.tsx:102-111 | `filter` keeps exactly the elements that pass and is never longer than its input |
| Seqs.FilterCount | app/products/ui/ProductsPageClient.tsx:102-111 | each copy of a passing element is kept, and none of a failing one |
| Seqs.FilterIsSubsequence | app/products/ui/ProductsPageClient.tsx:102-111 | the filtered list is a subsequence of the input: the order is kept |
| Seqs.FilterAppend | hooks/useFavorites.ts:45 | filtering distributes over concatenation |
| Seqs.FilterAllPass | app/products/ui/ProductsPageClient.tsx:102-111 | if every element passes, the list is returned unchanged |
| Seqs.FilterIdempotent | hooks/useFavorites.ts:45 | filtering twice with the same test is filtering once |
| Seqs.FilterAgree | app/products/ui/ProductsPageClient.tsx:102-111 | two tests that agree on the list select the same elements |
| Seqs.FilterNoDuplicates | hooks/useFavorites.ts:45 | filtering a list without duplicates gives a list without duplicates |
| Seqs.Distinct | app/products/ui/ProductsPageClient.tsx:95-96 | the contents of a `Set` built from a list: no duplicates and exactly the list's elements |
| Seqs.DistinctFirstAppearance | app/products/ui/ProductsPageClient.tsx:95-96 | the `Set`'s elements come in order of their first appearance in the list |
| Seqs.NoDuplicatesPermutation | components/ProductExplorer.tsx:25 | a permutation of a list without duplicates has none |
| StableSort.Insert | app/products/ui/ProductsPageClient.tsx:113-116 | one insertion step adds exactly the one element |
| StableSort.SortBy | app/products/ui/ProductsPageClient.tsx:113-116 | `[...list].sort(cmp)` is a permutation of the list |
| StableSort.SortSorted | app/products/ui/ProductsPageClient.tsx:113-116 | for a consistent comparator, the result is in the comparator's order |
| StableSort.SortStable | app/products/ui/ProductsPageClient.tsx:113-116 | elements the comparator ties keep their input order (ECMA-262 section 23.1.3.30) |
| StableSort.SortOrderedAndStable | components/ProductExplorer.tsx:44-45 | sorted and stable together, for every class of ties |
| Catalog.CategoriesOf | app/products/ui/ProductsPageClient.tsx:95 | `products.map(p => p.category)`: the same length, with each product's category in its place |
| Catalog.RateOf | app/products/ui/ProductsPageClient.tsx:116 | `p.rating?.rate ?? 0`: the rate when there is a rating, 0 otherwise |
| Catalog.PriceAscending | app/products/ui/ProductsPageClient.tsx:113 | `a.price - b.price` lets `a` precede `b` exactly when `a` costs no more |
| Catalog.PriceDescending | app/products/ui/ProductsPageClient.tsx:114 | `b.price - a.price` lets `a` precede `b` exactly when `a` costs no less |
| Catalog.PriceComparatorsConsistent | app/products/ui/ProductsPageClient.tsx:113-114 | the two price comparators are total and transitive |
| ProductsPageClient.Clamp | app/products/ui/ProductsPageClient.tsx:36-38 | never below `min`; at most `max` when `min <= max`; `n` itself inside the range, `min` below it, `max` above it; `min` whenever `max < min` |
| ProductsPageClient.MatchesQuery | app/products/ui/ProductsPageClient.tsx:103-107 | the text criterion holds iff the query is empty or occurs at some position of the lower-cased title, category or description |
| ProductsPageClient.MatchesCategory | app/products/ui/ProductsPageClient.tsx:109 | the category criterion: always met for "all"; otherwise met iff the category matches exactly, case-sensitively |
| ProductsPageClient.Passes | app/products/ui/ProductsPageClient.tsx:100-110 | both criteria, the query trimmed and lower-cased first; a query of white space only leaves the category criterion alone |
| ProductsPageClient.RatingDescending | app/products/ui/ProductsPageClient.tsx:116 | the rating comparator lets `a` precede `b` exactly when `a`'s rate is no lower |
| ProductsPageClient.Kept | app/products/ui/ProductsPageClient.tsx:100-111 | a product is kept iff the trimmed, lower-cased query is empty or in its lower-cased title, category or description, and the category is "all" or equal; each copy is kept; the order is kept |
| ProductsPageClient.FilterAndSort | app/products/ui/ProductsPageClient.tsx:99-119 | every mode gives a permutation of the kept products; "featured" gives them in source order |
| ProductsPageClient.Shown | app/products/ui/ProductsPageClient.tsx:121 | the prefix of `filtered` of length `min(visible, filtered.length)` |
| ProductsPageClient.CanLoadMore | app/products/ui/ProductsPageClient.tsx:122 | holds iff `visible < filtered.length` |
| ProductsPageClient.Categories | app/products/ui/ProductsPageClient.tsx:94-97 | "all" first, then every product category exactly once |
| ProductsPageClient.CategoriesInFirstAppearanceOrder | app/products/ui/ProductsPageClient.tsx:94-97 | after "all", the categories are in order of first appearance |
| ProductsPageClient.DefaultViewIsEverything | app/products/ui/ProductsPageClient.tsx:99-119 | with the default query, category and sort, every product is shown in source order |
| ProductsPageClient.WhitespaceQueryIsEmpty | app/products/ui/ProductsPageClient.tsx:100-104 | a query of white space only filters like the empty query |
| ProductsPageClient.UnknownCategoryIsEmpty | app/products/ui/ProductsPageClient.tsx:109 | a category other than "all" that no product has gives an empty view |
| ProductsPageClient.PriceAscView | app/products/ui/ProductsPageClient.tsx:113 | "price-asc": non-decreasing price; equal prices keep their filtered order |
| ProductsPageClient.PriceDescView | app/products/ui/ProductsPageClient.tsx:114 | "price-desc": non-increasing price; equal prices keep their filtered order |
| ProductsPageClient.TopRatedView | app/products/ui/ProductsPageClient.tsx:115-116 | "rating": non-increasing rate, with a missing rating counting as 0; equal rates keep their filtered order |
| ProductsPageClient.ViewHoldsKept | app/products/ui/ProductsPageClient.tsx:102-118 | in every mode the view holds exactly the kept products, unrated ones included, and is no longer than the product list |
| ProductsPageClient.PageState.constructor | app/products/ui/ProductsPageClient.tsx:42-55 | the initial state: no products, loading, no error, empty query, "all", "featured", 8 cards |
| ProductsPageClient.PageState.View | app/products/ui/ProductsPageClient.tsx:99-119 | `filtered` for the current state: exactly the products passing both criteria, never more than there are products |
| ProductsPageClient.PageState.LoadMoreOffered | app/products/ui/ProductsPageClient.tsx:122 | `canLoadMore` for the current state: iff `visible` is below the length of the view |
| ProductsPageClient.PageState.SetQuery | app/products/ui/ProductsPageClient.tsx:406-409 | a new query resets `visible` to 8 |
| ProductsPageClient.PageState.SetCategory | app/products/ui/ProductsPageClient.tsx:423-426 | a new category resets `visible` to 8 |
| ProductsPageClient.PageState.SetSort | app/products/ui/ProductsPageClient.tsx:444-447 | a new sort mode resets `visible` to 8 |
| ProductsPageClient.PageState.ViewTop | app/products/ui/ProductsPageClient.tsx:371 | "View Top" resets `visible` to 8 |
| ProductsPageClient.PageState.ResetFilters | app/products/ui/ProductsPageClient.tsx:136-141 | the query, category and sort go back to their defaults, `visible` to 8, and the view is then every product in source order |
| ProductsPageClient.PageState.LoadMore | app/products/ui/ProductsPageClient.tsx:648-651 | `visible` becomes `clamp(v + 8, 8, filtered.length)` and stays at least 8; when the button is offered it grows strictly, to `min(v + 8, filtered.length)` |
| ProductsPageClient.PageState.BeginLoad | app/products/ui/ProductsPageClient.tsx:58-60 | a load starts with `loading` set and the error cleared |
| ProductsPageClient.PageState.FinishLoad | app/products/ui/ProductsPageClient.tsx:76-84 | success: the products are replaced (a non-array body counts as none) and `visible` is 8; failure: no products, so the categories are just "all", and the message or the default is kept; abort: state is unchanged; `loading` ends false in every case |
| ProductExplorer.Normalize | components/ProductExplorer.tsx:15-17 | `normalize` is never longer than its input, and neither end of its result is white space |
| ProductExplorer.Keeps | components/ProductExplorer.tsx:38-41 | holds iff the category is "All" or equal, the normalized query is empty or occurs at some position of the normalized title, and the switch is off or the id is a favourite |
| ProductExplorer.NormalizeEmptyIff | components/ProductExplorer.tsx:15-17 | a string normalizes to "" exactly when it is all white space |
| ProductExplorer.NormalizeIdempotent | components/ProductExplorer.tsx:15-17 | normalizing twice is normalizing once |
| ProductExplorer.Kept | components/ProductExplorer.tsx:37-42 | a product is kept iff the category is "All" or equal, the normalized query is empty or in the normalized title, and the switch is off or the id is a favourite; each copy is kept; the order is kept |
| ProductExplorer.FilterAndSort | components/ProductExplorer.tsx:34-48 | every mode gives a permutation of the kept products; "relevance" gives them in source order |
| ProductExplorer.ViewHoldsKept | components/ProductExplorer.tsx:144-145 | the view holds exactly the kept products, so the count shown is at most the number of products |
| ProductExplorer.FavoritesIgnoredWhenOff | components/ProductExplorer.tsx:40 | with the switch off, the favourite set has no effect on the view |
| ProductExplorer.WhitespaceQueryIsEmpty | components/ProductExplorer.tsx:35-39 | a query of white space only matches every title |
| ProductExplorer.PriceAscView | components/ProductExplorer.tsx:44 | "price-asc": non-decreasing price; equal prices keep their filtered order |
| ProductExplorer.PriceDescView | components/ProductExplorer.tsx:45 | "price-desc": non-increasing price; equal prices keep their filtered order |
| ProductExplorer.CollectCategories | components/ProductExplorer.tsx:23-24 | the collecting loop yields each category once, in order of first insertion |
| ProductExplorer.Categories | components/ProductExplorer.tsx:22-26 | "All" first, then every product category exactly once |
| ProductExplorer.CategoriesSorted | components/ProductExplorer.tsx:25 | for a consistent `localeCompare`, the categories after "All" are in ascending order |
| UseFavorites.Throws | hooks/useFavorites.ts:15 | `Number` throws a TypeError exactly on an object with an own `toString` key, or an array holding one at any depth |
| UseFavorites.JoinedToNumber | hooks/useFavorites.ts:15 | `Number` of an array element through its joined text, where that does not throw: a number stays itself; a boolean or an object without its own `toString` is not finite; two or more elements are not finite; one element converts as that element |
| UseFavorites.ToNumber | hooks/useFavorites.ts:15 | `Number`, where it does not throw: numbers pass through unchanged; `null` becomes 0; `true` 1 and `false` 0; an object without its own `toString` is not finite |
| UseFavorites.Coerce | hooks/useFavorites.ts:14-16 | for an array none of whose elements throws: every id kept is the finite number of some element, and every element whose number is finite (`null` as 0 included) is kept; never more ids than elements |
| UseFavorites.IsFinite | hooks/useFavorites.ts:16 | `Number.isFinite`: holds exactly for the finite numbers |
| UseFavorites.Converted | hooks/useFavorites.ts:14-15 | the `map` stage: each element converted in its own place |
| UseFavorites.Values | hooks/useFavorites.ts:14-16 | the numbers a list of finite JavaScript numbers stands for, in place |
| UseFavorites.CoerceIsMapFilter | hooks/useFavorites.ts:14-16 | the conversion equals `map` then `filter(Number.isFinite)`, so every finite conversion is kept with its copies and in array order |
| UseFavorites.CoerceAppend | hooks/useFavorites.ts:14-16 | elements are converted one by one, so the array's order is kept |
| UseFavorites.ReadIds | hooks/useFavorites.ts:7-20 | never fails: a missing or empty slot, unparsable text or a non-array gives `[]`; so does an array with an element whose conversion throws (the `catch`); any other array gives the values of `map` then `filter(Number.isFinite)`: every finite conversion, with its copies, in order |
| UseFavorites.OwnToStringEmptiesRead | hooks/useFavorites.ts:14-18 | `[1,{"toString":0}]` and `[[{"toString":0}]]` read as `[]`, while `[1,{}]` reads as `[1]` |
| UseFavorites.Encode | hooks/useFavorites.ts:24 | `JSON.stringify(ids)`: an array holding each id as a finite number, in place |
| UseFavorites.ReadEncodeRoundTrip | hooks/useFavorites.ts:22-25 | reading back what `writeIds` stored gives the same list |
| UseFavorites.Without | hooks/useFavorites.ts:45 | the id is gone, every other id keeps its count, and the order is kept |
| UseFavorites.NextIds | hooks/useFavorites.ts:45 | the toggled id's membership flips; the others keep theirs; an absent id is appended at the end |
| UseFavorites.ToggleKeepsOthers | hooks/useFavorites.ts:45 | the other ids keep their order and their copies |
| UseFavorites.ToggleTwiceRestores | hooks/useFavorites.ts:45-46 | toggling an absent id twice restores the list and the stored encoding exactly |
| UseFavorites.ToggleTwiceMovesToEnd | hooks/useFavorites.ts:45 | toggling a present id twice moves it to the end |
| UseFavorites.ToggleNoDuplicates | hooks/useFavorites.ts:45 | toggle preserves "no duplicates" |
| UseFavorites.FavoritesStore.constructor | hooks/useFavorites.ts:28 | the initial ids are what `readIds` reads from the slot |
| UseFavorites.FavoritesStore.FavoriteSet | hooks/useFavorites.ts:39 | the set holds exactly the listed ids |
| UseFavorites.FavoritesStore.IsFavorite | hooks/useFavorites.ts:41 | holds iff the id is in the current list |
| UseFavorites.FavoritesStore.WriteIds | hooks/useFavorites.ts:22-25 | the slot then holds the JSON encoding of the list |
| UseFavorites.FavoritesStore.Toggle | hooks/useFavorites.ts:43-49 | `ids` becomes the next list and the slot holds its encoding; "no duplicates" is kept |
| UseFavorites.FavoritesStore.Clear | hooks/useFavorites.ts:51-54 | the list and the slot are both empty |
| UseFavorites.FavoritesStore.OnStorage | hooks/useFavorites.ts:31-34 | an event for the favourites key reloads `ids` through `readIds`; any other key, or none, leaves `ids` as it was |

## Left out

- Network I/O: `fetch`, the HTTP-error message, `AbortController` and the effect
  that starts the load (app/products/ui/ProductsPageClient.tsx:57-92).
  `FinishLoad` takes how the load ended as an argument.
- Rendering, the grid/list view switch, the filter drawer, `onShopNow` and every
  display-only expression (badges, truncation, `toFixed`, `formatPrice`).
- `avgRating`: a floating-point mean with rounding, shown for display only.
- `lib/utils.ts` (`cn`, `formatPrice`, `safeNumber`): thin wrappers over library
  and `Intl` behaviour. It is not part of this model.
- The debounce of the explorer's search box, which is timer-based. The filter is
  applied to the query after debouncing.
- The explorer's own state setters: they store their input with no logic of
  their own.
- Detail-page previous/next navigation: its source is not part of this model.
- `JSON.parse` itself: its result is the `Slot` datatype.
- JavaScript's StringToNumber (`Number` on a string): a parameter
  `stringToNumber`.
- `localeCompare`: a parameter. Its ordering is proved only for a consistent
  comparator.
- Text.LowerChar: only ASCII capitals are mapped, because full Unicode case
  mapping is not modelled.
- Text.ToLower: built on `Text.LowerChar`, so it lower-cases only ASCII letters
  and never changes a string's length.
- Floating point: prices, rates and ids are exact reals, and `NaN` comparator
  behaviour is not modelled. Comparator results use real subtraction, with no
  rounding.
- Favourite ids are reals. The model does not distinguish `0` from `-0` or
  follow `NaN` through `includes`/`has`.
- Browser details:
  - the `typeof window` server-side guard;
  - exceptions thrown by `localStorage`;
  - how `storage` events travel between tabs.

  The slot is the field `stored`, already holding whatever another tab wrote.
- React scheduling: each handler's state updates apply at once, in order.
  Memoisation is not modelled, since the memoised values are functions of their
  dependencies.
