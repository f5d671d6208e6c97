/** The catalogue filter state shared by the products page and its sidebar
    (client/src/lib/types.ts). The price range is a pair of whole numbers. */
module FilterTypes {

  datatype SortKey = Featured | PriceLow | PriceHigh | Newest | BestSellers

  datatype FilterState = FilterState(
    categories: seq<string>,
    priceMin: int,
    priceMax: int,
    sizes: seq<string>,
    colors: seq<string>,
    inStockOnly: bool,
    sortBy: SortKey)
}
