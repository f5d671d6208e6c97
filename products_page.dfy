/** The catalogue page's derivation (client/src/pages/products.tsx): a filter that is the
    conjunction of five tests, then a stable sort of the kept products by the selected
    key. The input list is never reordered; both steps build new sequences. */
module ProductsPage {
  import opened Schema
  import opened Seqs
  import opened Text
  import opened StableSort
  import opened FilterTypes

  // ---------------------------------------------------------------------------
  // The filter

  /** No category is selected, or the product's category is one of them (exact match). */
  predicate CategoryOk(f: FilterState, p: Product)
  {
    |f.categories| == 0 || p.category in f.categories
  }

  /** `!(price < min || price > max)`: both ends are inclusive. */
  predicate PriceOk(f: FilterState, p: Product)
  {
    !(p.price < f.priceMin || p.price > f.priceMax)
  }

  /** `product.sizes?.includes(size)`: a product without sizes has none. */
  predicate HasSize(sizes: Option<seq<string>>, size: string)
  {
    sizes.Some? && size in sizes.value
  }

  predicate SizeOk(f: FilterState, p: Product)
  {
    |f.sizes| == 0 || exists i :: 0 <= i < |f.sizes| && HasSize(p.sizes, f.sizes[i])
  }

  /** Some colour of the product contains `color`, ignoring case. */
  predicate ColorMatches(colors: Option<seq<string>>, color: string)
  {
    colors.Some? && exists j :: 0 <= j < |colors.value| && Includes(Lower(colors.value[j]), Lower(color))
  }

  predicate ColorOk(f: FilterState, p: Product)
  {
    |f.colors| == 0 || exists i :: 0 <= i < |f.colors| && ColorMatches(p.colors, f.colors[i])
  }

  predicate StockOk(f: FilterState, p: Product)
  {
    !(f.inStockOnly && !p.inStock)
  }

  /** The page's filter callback. */
  predicate Keep(f: FilterState, p: Product)
  {
    CategoryOk(f, p) && PriceOk(f, p) && SizeOk(f, p) && ColorOk(f, p) && StockOk(f, p)
  }

  function KeepBy(f: FilterState): Product -> bool
  {
    (p: Product) => Keep(f, p)
  }

  /** `allProducts.filter(...)`: exactly the products passing all five tests, in order. */
  function FilterProducts(f: FilterState, ps: seq<Product>): (r: seq<Product>)
    ensures IsSubseq(r, ps)
    ensures forall p :: p in r <==> p in ps && Keep(f, p)
  {
    var r := Filter(ps, KeepBy(f));
    FilterIsSubseq(ps, KeepBy(f));
    forall p ensures p in r <==> p in ps && Keep(f, p) {
      FilterMembership(ps, KeepBy(f), p);
    }
    r
  }

  /** What every kept product satisfies, test by test. */
  lemma KeptProducts(f: FilterState, ps: seq<Product>, p: Product)
    requires p in FilterProducts(f, ps)
    ensures |f.categories| > 0 ==> p.category in f.categories
    ensures f.priceMin <= p.price <= f.priceMax
    ensures |f.sizes| > 0 ==> p.sizes.Some? && exists s :: s in f.sizes && s in p.sizes.value
    ensures |f.colors| > 0 ==> exists c :: c in f.colors && ColorMatches(p.colors, c)
    ensures f.inStockOnly ==> p.inStock
  {
    if |f.sizes| > 0 {
      var i :| 0 <= i < |f.sizes| && HasSize(p.sizes, f.sizes[i]);
      assert f.sizes[i] in f.sizes;
    }
    if |f.colors| > 0 {
      var i :| 0 <= i < |f.colors| && ColorMatches(p.colors, f.colors[i]);
      assert f.colors[i] in f.colors;
    }
  }

  /** A size filter drops every product that lists no sizes. */
  lemma NoSizesDropped(f: FilterState, ps: seq<Product>, p: Product)
    requires |f.sizes| > 0 && p.sizes.None?
    ensures p !in FilterProducts(f, ps)
  {
  }

  /** The category test is case-sensitive: selecting "men" drops a "Men" product. */
  lemma CategoryCaseSensitive(f: FilterState, p: Product)
    requires f.categories == ["men"] && p.category == "Men"
    ensures !Keep(f, p)
  {
    assert "Men" != "men" by {
      assert "Men"[0] != "men"[0];
    }
  }

  /** The colour test matches substrings ignoring case: "blue" finds "Sky Blue". */
  lemma BlueMatchesSkyBlue()
    ensures ColorMatches(Some(["Sky Blue"]), "blue")
  {
    var c := Lower("Sky Blue");
    var q := Lower("blue");
    assert c[4..8] == q;
    assert OccursAt(c, q, 4);
    IncludesAt(c, q);
    assert Includes(Lower(["Sky Blue"][0]), Lower("blue"));
  }

  // ---------------------------------------------------------------------------
  // The sort

  /** The product carries the `best_seller` tag. */
  predicate BestSeller(p: Product)
  {
    p.tags.Some? && "best_seller" in p.tags.value
  }

  /** The page's comparator, as written: negative puts `a` first, which happens for the
      cheaper product when sorting up by price, the dearer one when sorting down, the
      later-created one for newest first, and a best seller before a product that is not
      one; the featured order ties every pair. */
  function Compare(key: SortKey, a: Product, b: Product): (r: int)
    ensures key == PriceLow ==> (r < 0 <==> a.price < b.price) && (r == 0 <==> a.price == b.price)
    ensures key == PriceHigh ==> (r < 0 <==> a.price > b.price) && (r == 0 <==> a.price == b.price)
    ensures key == Newest ==> (r < 0 <==> a.createdAt > b.createdAt) && (r == 0 <==> a.createdAt == b.createdAt)
    ensures key == BestSellers ==> (r < 0 <==> BestSeller(a) && !BestSeller(b)) && (r == 0 <==> BestSeller(a) == BestSeller(b))
    ensures key == Featured ==> r == 0
  {
    match key
    case PriceLow => a.price - b.price
    case PriceHigh => b.price - a.price
    case Newest => b.createdAt - a.createdAt
    case BestSellers => (if BestSeller(b) then 1 else 0) - (if BestSeller(a) then 1 else 0)
    case Featured => 0
  }

  /** The key each comparator orders by, ascending. */
  function Rank(key: SortKey, p: Product): int
  {
    match key
    case PriceLow => p.price
    case PriceHigh => 0 - p.price
    case Newest => -p.createdAt
    case BestSellers => if BestSeller(p) then 0 else 1
    case Featured => 0
  }

  function RankBy(key: SortKey): Product -> int
  {
    (p: Product) => Rank(key, p)
  }

  /** Every comparator is the difference of the ranks, so a stable sort by rank sorts
      exactly as the comparator does. */
  lemma CompareIsRankDifference(key: SortKey, a: Product, b: Product)
    ensures Compare(key, a, b) == Rank(key, a) - Rank(key, b)
    ensures Compare(key, a, b) == -Compare(key, b, a)
  {
  }

  /** `[...filtered].sort(comparator)`, stable. */
  function SortProducts(key: SortKey, ps: seq<Product>): (r: seq<Product>)
    ensures multiset(r) == multiset(ps)
  {
    SortPermutes(RankBy(key), ps);
    Sort(RankBy(key), ps)
  }

  /** For every key, no later product compares below an earlier one. */
  lemma SortProductsOrdered(key: SortKey, ps: seq<Product>)
    ensures var r := SortProducts(key, ps);
            forall i, j :: 0 <= i < j < |r| ==> Compare(key, r[i], r[j]) <= 0
  {
    SortSorted(RankBy(key), ps);
  }

  /** `price_low` ascends and `price_high` descends in price; `newest` descends in
      creation time. */
  lemma SortKeysOrder(ps: seq<Product>)
    ensures forall i, j :: 0 <= i < j < |SortProducts(PriceLow, ps)| ==>
              SortProducts(PriceLow, ps)[i].price <= SortProducts(PriceLow, ps)[j].price
    ensures forall i, j :: 0 <= i < j < |SortProducts(PriceHigh, ps)| ==>
              SortProducts(PriceHigh, ps)[i].price >= SortProducts(PriceHigh, ps)[j].price
    ensures forall i, j :: 0 <= i < j < |SortProducts(Newest, ps)| ==>
              SortProducts(Newest, ps)[i].createdAt >= SortProducts(Newest, ps)[j].createdAt
  {
    SortProductsOrdered(PriceLow, ps);
    SortProductsOrdered(PriceHigh, ps);
    SortProductsOrdered(Newest, ps);
  }

  function IsBest(): Product -> bool
  {
    (p: Product) => BestSeller(p)
  }

  function IsNotBest(): Product -> bool
  {
    (p: Product) => !BestSeller(p)
  }

  /** `best_sellers` puts every tagged product before every untagged one, and keeps the
      input order within each group. */
  lemma BestSellersGrouped(ps: seq<Product>)
    ensures var r := SortProducts(BestSellers, ps);
            forall i, j :: 0 <= i < j < |r| && BestSeller(r[j]) ==> BestSeller(r[i])
    ensures Filter(SortProducts(BestSellers, ps), IsBest()) == Filter(ps, IsBest())
    ensures Filter(SortProducts(BestSellers, ps), IsNotBest()) == Filter(ps, IsNotBest())
  {
    var r := SortProducts(BestSellers, ps);
    SortSorted(RankBy(BestSellers), ps);
    forall i, j | 0 <= i < j < |r| && BestSeller(r[j]) ensures BestSeller(r[i]) {
      assert RankBy(BestSellers)(r[i]) <= RankBy(BestSellers)(r[j]);
    }
    GroupKeepsOrder(ps, 0, IsBest());
    GroupKeepsOrder(ps, 1, IsNotBest());
  }

  /** The products of one best-seller rank keep their input order. */
  lemma GroupKeepsOrder(ps: seq<Product>, v: int, keep: Product -> bool)
    requires forall p :: keep(p) == (Rank(BestSellers, p) == v)
    ensures Filter(SortProducts(BestSellers, ps), keep) == Filter(ps, keep)
  {
    var rank := RankBy(BestSellers);
    var r := SortProducts(BestSellers, ps);
    SortStable(rank, ps, v);
    forall i | 0 <= i < |r| ensures keep(r[i]) == RankIs(rank, v)(r[i]) {}
    forall i | 0 <= i < |ps| ensures keep(ps[i]) == RankIs(rank, v)(ps[i]) {}
    FilterCongruent(r, keep, RankIs(rank, v));
    FilterCongruent(ps, keep, RankIs(rank, v));
  }

  /** `featured` compares everything equal, so the order is left as it is. */
  lemma FeaturedKeepsOrder(ps: seq<Product>)
    ensures SortProducts(Featured, ps) == ps
  {
    SortConstantRank(RankBy(Featured), ps);
  }

  /** The list the page shows: the filtered products, sorted. */
  function View(f: FilterState, ps: seq<Product>): (r: seq<Product>)
    ensures multiset(r) == multiset(FilterProducts(f, ps))
    ensures forall p :: p in r <==> p in ps && Keep(f, p)
  {
    var r := SortProducts(f.sortBy, FilterProducts(f, ps));
    forall p ensures p in r <==> p in FilterProducts(f, ps) {
      assert p in r <==> p in multiset(r);
    }
    r
  }
}
