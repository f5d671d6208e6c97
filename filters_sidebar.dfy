/** Editing the filter state (client/src/components/filters-sidebar.tsx): membership
    toggles on the three lists, a single-field update, clear-all, and the predicate that
    shows the clear button. Each edit builds a new state. */
module FiltersSidebar {
  import opened Schema
  import opened Seqs
  import opened FilterTypes
  import opened ProductsPage

  function Other(x: string): string -> bool
  {
    y => y != x
  }

  /** `list.includes(x) ? list.filter(id => id !== x) : [...list, x]`. */
  function Toggle(xs: seq<string>, x: string): (r: seq<string>)
    ensures x in r <==> x !in xs
    ensures forall y :: y != x ==> (y in r <==> y in xs)
  {
    if x in xs then
      var r := Filter(xs, Other(x));
      forall y ensures y in r <==> y in xs && y != x {
        FilterMembership(xs, Other(x), y);
      }
      r
    else xs + [x]
  }

  /** Toggling keeps every other element, in its original relative order. */
  lemma ToggleKeepsOthers(xs: seq<string>, x: string)
    ensures Filter(Toggle(xs, x), Other(x)) == Filter(xs, Other(x))
  {
    if x in xs {
      FilterFilter(xs, Other(x), Other(x), Other(x));
    } else {
      FilterConcat(xs, [x], Other(x));
      assert Filter([x], Other(x)) == [];
    }
  }

  /** Toggling an absent value twice restores the list. */
  lemma ToggleTwice(xs: seq<string>, x: string)
    requires x !in xs
    ensures Toggle(Toggle(xs, x), x) == xs
  {
    FilterConcat(xs, [x], Other(x));
    assert Filter([x], Other(x)) == [];
    FilterKeepsAll(xs, Other(x));
  }

  /** The value `updateFilter` writes, tagged by the field it goes to. */
  datatype FilterUpdate =
    | SetCategories(categories: seq<string>)
    | SetPriceRange(lo: int, hi: int)
    | SetSizes(sizes: seq<string>)
    | SetColors(colors: seq<string>)
    | SetInStockOnly(inStockOnly: bool)
    | SetSortBy(sortBy: SortKey)

  /** The field an update writes. */
  datatype FilterKey = CategoriesField | PriceField | SizesField | ColorsField | StockField | SortField

  function FieldOf(u: FilterUpdate): FilterKey
  {
    match u
    case SetCategories(_) => CategoriesField
    case SetPriceRange(_, _) => PriceField
    case SetSizes(_) => SizesField
    case SetColors(_) => ColorsField
    case SetInStockOnly(_) => StockField
    case SetSortBy(_) => SortField
  }

  /** `{ ...filters, [key]: value }`. */
  function UpdateFilter(f: FilterState, u: FilterUpdate): (r: FilterState)
    ensures FieldOf(u) != CategoriesField ==> r.categories == f.categories
    ensures FieldOf(u) != PriceField ==> r.priceMin == f.priceMin && r.priceMax == f.priceMax
    ensures FieldOf(u) != SizesField ==> r.sizes == f.sizes
    ensures FieldOf(u) != ColorsField ==> r.colors == f.colors
    ensures FieldOf(u) != StockField ==> r.inStockOnly == f.inStockOnly
    ensures FieldOf(u) != SortField ==> r.sortBy == f.sortBy
    ensures u.SetCategories? ==> r.categories == u.categories
    ensures u.SetPriceRange? ==> r.priceMin == u.lo && r.priceMax == u.hi
    ensures u.SetSizes? ==> r.sizes == u.sizes
    ensures u.SetColors? ==> r.colors == u.colors
    ensures u.SetInStockOnly? ==> r.inStockOnly == u.inStockOnly
    ensures u.SetSortBy? ==> r.sortBy == u.sortBy
  {
    match u
    case SetCategories(v) => f.(categories := v)
    case SetPriceRange(lo, hi) => f.(priceMin := lo, priceMax := hi)
    case SetSizes(v) => f.(sizes := v)
    case SetColors(v) => f.(colors := v)
    case SetInStockOnly(v) => f.(inStockOnly := v)
    case SetSortBy(v) => f.(sortBy := v)
  }

  /** Updates of different fields commute; a second update of the same field overrides
      the first. */
  lemma UpdatesCompose(f: FilterState, u: FilterUpdate, w: FilterUpdate)
    ensures FieldOf(u) != FieldOf(w) ==> UpdateFilter(UpdateFilter(f, u), w) == UpdateFilter(UpdateFilter(f, w), u)
    ensures FieldOf(u) == FieldOf(w) ==> UpdateFilter(UpdateFilter(f, u), w) == UpdateFilter(f, w)
  {
  }

  /** `toggleCategory`, `toggleSize`, `toggleColor`: the list is toggled, nothing else changes. */
  function ToggleCategory(f: FilterState, x: string): (r: FilterState)
    ensures r == f.(categories := r.categories)
    ensures x in r.categories <==> x !in f.categories
    ensures forall y :: y != x ==> (y in r.categories <==> y in f.categories)
  {
    UpdateFilter(f, SetCategories(Toggle(f.categories, x)))
  }

  function ToggleSize(f: FilterState, x: string): (r: FilterState)
    ensures r == f.(sizes := r.sizes)
    ensures x in r.sizes <==> x !in f.sizes
    ensures forall y :: y != x ==> (y in r.sizes <==> y in f.sizes)
  {
    UpdateFilter(f, SetSizes(Toggle(f.sizes, x)))
  }

  function ToggleColor(f: FilterState, x: string): (r: FilterState)
    ensures r == f.(colors := r.colors)
    ensures x in r.colors <==> x !in f.colors
    ensures forall y :: y != x ==> (y in r.colors <==> y in f.colors)
  {
    UpdateFilter(f, SetColors(Toggle(f.colors, x)))
  }

  /** `clearAllFilters`: no filter is active, the slider spans its whole range, the sort
      is back to featured, and every product priced within that range is kept. */
  function ClearAllFilters(): (r: FilterState)
    ensures !HasActiveFilters(r)
    ensures r.priceMin == 0 && r.priceMax == 5000 && r.sortBy == Featured
    ensures forall p: Product :: p.price <= 5000 ==> Keep(r, p)
  {
    FilterState([], 0, 5000, [], [], false, Featured)
  }

  /** Whether the clear button shows. When it does not, no list is selected, stock is not
      required and the price range covers [0, 5000], so every product priced within that
      range passes the filter. */
  function HasActiveFilters(f: FilterState): (active: bool)
    ensures !active ==> f.categories == [] && f.sizes == [] && f.colors == [] && !f.inStockOnly
    ensures !active ==> forall p: Product :: p.price <= 5000 ==> Keep(f, p)
  {
    || |f.categories| > 0
    || |f.sizes| > 0
    || |f.colors| > 0
    || f.inStockOnly
    || f.priceMin > 0
    || f.priceMax < 5000
  }

  /** The sort order never makes a filter active, and the cleared state is inactive. */
  lemma ActiveIgnoresSort(f: FilterState, k: SortKey)
    ensures HasActiveFilters(f.(sortBy := k)) == HasActiveFilters(f)
    ensures !HasActiveFilters(ClearAllFilters())
  {
  }

  /** Within the slider's range [0, 5000], a state is inactive exactly when it is the
      cleared state up to its sort order. */
  lemma InactiveIsCleared(f: FilterState)
    requires 0 <= f.priceMin && f.priceMax <= 5000
    ensures !HasActiveFilters(f) <==> f.(sortBy := Featured) == ClearAllFilters()
  {
  }

  /** Clearing the filters shows every product of the catalogue, in its order, as long as
      no price exceeds 5000. */
  lemma ClearedShowsAll(ps: seq<Product>)
    requires forall i :: 0 <= i < |ps| ==> ps[i].price <= 5000
    ensures View(ClearAllFilters(), ps) == ps
  {
    FilterKeepsAll(ps, KeepBy(ClearAllFilters()));
    FeaturedKeepsOrder(ps);
  }
}
