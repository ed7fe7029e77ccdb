/** The product record both view engines work on, as the product API returns it. */
module Catalog {
  import StableSort

  datatype Option<+T> = None | Some(value: T)

  /** `rating?: { rate, count }`; absent means the product is unrated. */
  datatype Rating = Rating(rate: real, count: int)

  /** JavaScript numbers are modelled as reals: `NaN` and the infinities are not
      part of a product. */
  datatype Product = Product(
    id: real,
    title: string,
    price: real,
    category: string,
    image: string,
    description: string,
    rating: Option<Rating>)

  /** `p.rating?.rate ?? 0`. */
  function RateOf(p: Product): (r: real)
    ensures p.rating.None? ==> r == 0.0
    ensures p.rating.Some? ==> r == p.rating.value.rate
  {
    match p.rating
    case None => 0.0
    case Some(rt) => rt.rate
  }

  /** `products.map(p => p.category)`. */
  function CategoriesOf(products: seq<Product>): (r: seq<string>)
    ensures |r| == |products|
    ensures forall i :: 0 <= i < |products| ==> r[i] == products[i].category
  {
    seq(|products|, i requires 0 <= i < |products| => products[i].category)
  }

  /** `(a, b) => a.price - b.price`, the comparator of both "price-asc" sorts. */
  function PriceAscending(a: Product, b: Product): (r: real)
    ensures r <= 0.0 <==> a.price <= b.price
  {
    a.price - b.price
  }

  /** `(a, b) => b.price - a.price`, the comparator of both "price-desc" sorts. */
  function PriceDescending(a: Product, b: Product): (r: real)
    ensures r <= 0.0 <==> a.price >= b.price
  {
    b.price - a.price
  }

  lemma PriceComparatorsConsistent()
    ensures StableSort.ConsistentComparator(PriceAscending)
    ensures StableSort.ConsistentComparator(PriceDescending)
  {
  }
}
