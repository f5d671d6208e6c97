# Classic Polo storefront: a Dafny model of the cart and catalogue core

This project models the logic core of a small clothing storefront. The store is written
in TypeScript, with an Express server and a React client. The model covers:

- **The in-memory store** (`server/storage.ts`, modules `OrderedMap` and `Storage`).
  `MemStorage` keeps a product `Map` and a cart `Map`, each keyed by ids from a counter
  that starts at 1. A JavaScript `Map` iterates in insertion order, so a table is
  modelled as its entries, its key order and its counter (`OrderedMap.Table`). The
  class `Storage.MemStorage` has these as fields, and its methods change them in place.
  Each method is specified by a pure transition on table values (`AddItem`,
  `UpdateItem`, `RemoveItem`, `ClearSession`, `AddProduct`, `SeedAll`, `Lines`). The
  lemmas about the store are proved about those transitions.
- **The request handlers** (`server/routes.ts`, modules `Routes` and `Export`). They
  cover:
  - the session header default;
  - the search-over-category precedence of the product listing;
  - the merge-on-add rule of `POST /api/cart`, as a method over the store;
  - the 404 replies of `PATCH` and `DELETE`;
  - the CSV export and the sitemap as string builders.
- **The products page** (`client/src/pages/products.tsx`, module `ProductsPage`). It
  has a five-part filter and a stable comparator sort, which is modelled as an insertion
  sort by an integer rank (`StableSort`).
- **The filter sidebar** (`client/src/components/filters-sidebar.tsx`, module
  `FiltersSidebar`). It has list toggles, a single-field update, clear-all and the
  "active filters" test.
- **The cart hook and cart panel** (`client/src/hooks/use-cart.ts`,
  `client/src/components/cart-sidebar.tsx`, modules `CartHook` and `CartSummary`). They
  cover the total and unit-count folds, the remove-or-patch choice of `updateQuantity`,
  the `addToCart` body, the panel toggle, and the shipping, tax and total formulas.

Modelling choices:

- Prices are whole currency units (`nat`). Every seeded price is a whole number.
- Timestamps are integers, and the clock is a `now` parameter.
- `toLowerCase` is ASCII lowering.
- A JSON request field can be left out, sent as `null`, or sent with a value
  (`Schema.Field`). These three compare differently under `===`, and the merge rule
  depends on that difference.

Two behaviours of the code are easy to miss:

- The server stores a `PATCH` quantity of 0 or less as sent (`Routes.PatchZeroKeepsLine`).
  Only the client hook removes the line instead (`CartHook.UpdateQuantityEffect`).
- `POST /api/cart` merges a request into an existing line with the same product, colour
  and size. `addToCart` keeps a left-out or empty colour or size as `null`, but the
  comparison uses the value as sent. A left-out colour or size therefore never matches.
  An empty one matches only a line whose colour or size a `PATCH` set to `""`, because
  `addToCart` itself never stores one; without such a line, posting an empty colour
  twice adds two lines (`Routes.EmptyColourInserts`, `Routes.EmptyColourDuplicates`). A
  non-empty value or an explicit `null` matches a line holding the same value. Posts with a non-empty colour and
  size keep a session's lines distinct by product, colour and size
  (`Routes.PostKeepsChoicesDistinct`, `CartHook.HookAddsKeepDistinct`).

An empty cart shows its own empty view, with no summary and no hint. Otherwise the panel
charges shipping up to and including a subtotal of 1500, and its hint asks for
`1500 - subtotal` more. Adding exactly that amount still leaves shipping charged
(`CartSummary.FreeShippingHint`).

## Model

| member | source | states |
|---|---|---|
| `Storage.FieldOrNull` | server/storage.ts:130-131 | `v \|\| null` on colour and size: undefined, null and "" become null, and any other value is kept |
| `Storage.IdOrNull` | server/storage.ts:128 | `productId \|\| null`: undefined, null and 0 become null, and any other id is kept |
| `Storage.QuantityOrOne` | server/storage.ts:129 | `quantity \|\| 1`: a missing or zero quantity becomes 1, and any other quantity is kept |
| `Storage.FullProduct` | server/storage.ts:1295-1310 | a seeded or created product gets the given id and time; sku, name, category and price are kept; inStock defaults to true, stockCount to 0, and an empty description to null |
| `Storage.AddItem` | server/storage.ts:122-135 | the new line gets the counter's id, which is fresh and above every existing id; it is stored under that id and appended last; the counter advances; the defaults are applied and the session is kept |
| `Storage.ApplyUpdate` | server/storage.ts:141 | `{...item, ...updates}`: an absent field keeps its value, null clears it, and a value replaces it; id, session and creation time never change |
| `Storage.UpdateItem` | server/storage.ts:137-144 | unknown id: undefined and the cart is unchanged; known id: only that entry is overwritten with the merged line, and key order and counter are kept |
| `Storage.RemoveItem` | server/storage.ts:146-148 | returns true exactly when the id was a key; afterwards the key is gone and every other entry is unchanged |
| `Storage.ClearSession` | server/storage.ts:150-156 | exactly the lines of the session are deleted, and every other line is kept unchanged |
| `Storage.JoinSpec` | server/storage.ts:111-120 | the join keeps, in order, exactly the lines of the session whose product resolves, each paired with that product |
| `Storage.JoinMembers` | server/storage.ts:111-120 | a line is in the join exactly when its item is listed, belongs to the session, and is paired with the product it resolves to |
| `Storage.Lines` | server/storage.ts:111-120 | `getCartItems(s)`: the lines are the session's resolving entries in insertion order, a subsequence of the cart; a line appears exactly when it is stored under its id, belongs to `s`, and its product resolves |
| `Storage.ClearSessionLines` | server/storage.ts:150-156 | after clearing `s`, the view of `s` is empty and every other session's view is unchanged |
| `Storage.ClearSessionIdempotent` | server/storage.ts:150-156 | clearing a session a second time changes nothing |
| `Storage.WithoutAbsent` | server/storage.ts:147 | deleting keys that are not present leaves the table unchanged |
| `Storage.ByCategory` | server/storage.ts:71-75 | exactly the products whose lowered category equals the lowered request, in store order |
| `Storage.ByCategoryIgnoresCase` | server/storage.ts:71-75 | the case of the requested category does not change the result |
| `Storage.Search` | server/storage.ts:77-86 | exactly the products whose name, description, category or some tag contains the lowered query, ignoring case, in store order |
| `Storage.AddProduct` | server/storage.ts:88-108 | the product gets the counter's id, which is fresh; it is built with its defaults and appended last |
| `Storage.SeedAll` | server/storage.ts:1293-1312 | loading the seeds one by one gives a catalogue whose key order, counter and entries agree, with every product stored under its own id |
| `Storage.SeedAllIds` | server/storage.ts:1293-1312 | the seeded products get the consecutive ids 1, 2, … in seed order, and the counter ends one past the last |
| `Storage.CatalogIdsAscend` | server/storage.ts:63-65 | store order is ascending id order |
| `Storage.MemStorage.constructor` | server/storage.ts:32-42 | the cart starts empty, and the catalogue is the seeded one |
| `Storage.MemStorage.InitializeProducts` | server/storage.ts:1293-1312 | the loop adds each seed under the next id, and the catalogue ends as `SeedAll` of the seeds; the cart is untouched |
| `Storage.MemStorage.GetAllProducts` | server/storage.ts:63-65 | lists exactly the stored products, one per key |
| `Storage.MemStorage.GetProductById` | server/storage.ts:67-69 | found exactly when the id is a key, and then the product stored under it |
| `Storage.MemStorage.GetProductsByCategory` | server/storage.ts:71-75 | exactly the stored products of the category, ignoring case, in store order |
| `Storage.MemStorage.SearchProducts` | server/storage.ts:77-86 | exactly the stored products that mention the query, in store order |
| `Storage.MemStorage.CreateProduct` | server/storage.ts:88-108 | the catalogue fields change as `AddProduct` says, and the cart is untouched |
| `Storage.MemStorage.GetCartItems` | server/storage.ts:111-120 | exactly the stored lines of the session whose product resolves, each with its product, as a subsequence of the cart |
| `Storage.MemStorage.AddToCart` | server/storage.ts:122-135 | the cart fields change as `AddItem` says, and the catalogue is untouched |
| `Storage.MemStorage.UpdateCartItem` | server/storage.ts:137-144 | the cart fields change as `UpdateItem` says, and the catalogue is untouched |
| `Storage.MemStorage.RemoveFromCart` | server/storage.ts:146-148 | the cart fields change as `RemoveItem` says, and the result reports whether the id was present |
| `Storage.MemStorage.ClearCart` | server/storage.ts:150-156 | collecting the session's ids and deleting them one at a time gives `ClearSession` of the old cart |
| `OrderedMap.Insert` | server/storage.ts:123-133 | `map.set(next++, v)`: the key is fresh, the old entries are unchanged, and the value comes last in iteration order |
| `OrderedMap.Replace` | server/storage.ts:142 | `map.set(k, v)` on a present key: the entry changes, and key order and other entries do not |
| `OrderedMap.Delete` | server/storage.ts:147 | `map.delete(k)` reports whether `k` was present and removes it |
| `OrderedMap.WithoutWithout` | server/storage.ts:155 | deleting one key set after another deletes their union |
| `Routes.SessionOf` | server/routes.ts:46 | a missing or empty `session-id` header means `"default-session"`; any other header value is the session |
| `Routes.Dispatch` | server/routes.ts:14-20 | a non-empty search runs the search; otherwise a non-empty category runs the category query; otherwise the whole catalogue |
| `Routes.ListProducts` | server/routes.ts:14-20 | the listing is a subsequence of the catalogue: the search matches, the category matches, or everything, in that precedence |
| `Routes.SearchOverridesCategory` | server/routes.ts:14-15 | with a search given, the category parameter does not affect the result |
| `Routes.EmptySearchIgnored` | server/routes.ts:14 | an empty search parameter acts as if it were absent |
| `Routes.GetProductsRoute` | server/routes.ts:9-22 | `GET /api/products` returns a subsequence of the store's catalogue, all of it without parameters |
| `Routes.GetProductRoute` | server/routes.ts:28-37 | 404 exactly when the id is NaN or not a key; otherwise the product stored under the id |
| `Routes.GetCartRoute` | server/routes.ts:44-48 | the caller's session's resolving lines, each with its product |
| `Routes.ClearCartRoute` | server/routes.ts:123-127 | clears exactly the caller's session's lines, leaves the catalogue alone, and replies "Cart cleared" |
| `Routes.WithSession` | server/routes.ts:56-60 | the header's session replaces any session in the body; the other fields are kept |
| `Routes.FindMatch` | server/routes.ts:63-68 | returns the first line whose product, colour and size are strictly equal to the request's, or none exactly when no line matches |
| `Routes.Existing` | server/routes.ts:62-68 | a match is a stored, resolving line of the session with the same choice; there is none exactly when no such stored line exists |
| `Routes.Post` | server/routes.ts:62-79 | with a match, that line's quantity grows by `quantity \|\| 1`, no row is added, and nothing else changes; without one, a new row is added as `addToCart` builds it |
| `Routes.PostCartRoute` | server/routes.ts:54-79 | reading the session's cart and then updating or adding changes the store as `Post` says, and leaves the catalogue alone |
| `Routes.PostUnresolvedInserts` | server/routes.ts:63-78 | a request whose product does not resolve never merges: it always adds a row under a fresh id |
| `Routes.MergeKeepsChoices` | server/routes.ts:70-75 | a merge changes one quantity, so the product, colour and size of each line in every session's view stay the same |
| `Routes.PostOtherSessions` | server/routes.ts:62-79 | a post leaves every other session's view unchanged |
| `Routes.PostKeepsChoicesDistinct` | server/routes.ts:62-79 | with non-empty colour and size, a post keeps the session's resolving lines distinct by product, colour and size |
| `Routes.PostAppends` | server/routes.ts:76-78 | a post without a match whose product resolves appends the new line to the session's view |
| `Routes.EmptyColourInserts` | server/routes.ts:64-68 | an empty colour never matches when no empty colour is stored, and the added row stores none |
| `Routes.EmptyColourDuplicates` | server/routes.ts:62-79 | posting the same request with an empty colour twice gives two resolving lines with the same choice |
| `Routes.Patch` | server/routes.ts:88-98 | 404 and no change exactly for a NaN or unknown id; otherwise the fields are written in place and the line is kept whatever its quantity |
| `Routes.PatchZeroKeepsLine` | server/routes.ts:93 | a quantity of 0 keeps the line, with quantity 0 |
| `Routes.PatchCartRoute` | server/routes.ts:88-99 | the store changes as `Patch` says |
| `Routes.Remove` | server/routes.ts:108-117 | 404 and no change exactly for a NaN or unknown id; otherwise only that line goes and the message is sent |
| `Routes.DeleteCartItemRoute` | server/routes.ts:108-117 | the store changes as `Remove` says |
| `Export.Quoted` | server/routes.ts:164 | a quoted field is the text between two double quotes |
| `Export.CsvRow` | server/routes.ts:161-179 | a row has one field per header |
| `Export.CsvRowColumns` | server/routes.ts:161-179 | the id and price columns read back as the numbers; the name, description, list and link columns are quoted; an absent original price gives an empty column; stock shows as Yes/No; the link is the product page |
| `Export.CsvTextColumns` | server/routes.ts:164-175 | the name and description sit between their quotes as stored, a null description leaves the quotes empty, and each colour, size, image and tag list splits back on ", " into the list when no element has a comma; an absent or empty list leaves the quotes empty |
| `Text.SplitListJoin` | server/routes.ts:172-175 | splitting a ", "-join on ", " gives the parts back when no part contains a comma |
| `Export.HeaderLineColumns` | server/routes.ts:154-158 | the header line splits on commas into the 17 column names |
| `Export.RowLines` | server/routes.ts:182 | one joined row per product, in store order |
| `Export.Csv` | server/routes.ts:154-182 | the document opens with the header line; that is the whole document for an empty catalogue, and otherwise a newline follows it |
| `Export.CsvLines` | server/routes.ts:182 | the document splits into the header line followed by one line per product in store order |
| `Export.FixedUrls` | server/routes.ts:199-206 | the seven fixed pages come first, in a fixed order |
| `Export.ProductUrls` | server/routes.ts:207-211 | one `/product/{id}` entry per product in order, each weekly with priority 0.7 |
| `Export.SitemapUrls` | server/routes.ts:199-212 | the seven fixed pages, then the product entries, 7 + n in all |
| `Export.SitemapUrlsDistinct` | server/routes.ts:199-212 | when product ids are distinct, no URL is listed twice |
| `Export.CatalogSitemapDistinct` | server/routes.ts:196-212 | the sitemap of the store's catalogue lists no URL twice |
| `Export.SitemapXml` | server/routes.ts:214-221 | the document opens with the XML declaration and the `urlset` opening tag, and ends with the closing tag |
| `Export.SitemapListsProducts` | server/routes.ts:214-221 | every product's page appears in the XML document as a `<loc>` element |
| `ProductsPage.FilterProducts` | client/src/pages/products.tsx:30-64 | the kept products are exactly those passing all five tests, as a subsequence of the input |
| `ProductsPage.KeptProducts` | client/src/pages/products.tsx:32-61 | every kept product has a listed category, a price within the inclusive range, a listed size, a colour containing a listed colour, and stock when required |
| `ProductsPage.NoSizesDropped` | client/src/pages/products.tsx:43-46 | with a size filter, a product without sizes is dropped |
| `ProductsPage.CategoryCaseSensitive` | client/src/pages/products.tsx:32-34 | the category test is exact: selecting "men" drops a "Men" product |
| `ProductsPage.BlueMatchesSkyBlue` | client/src/pages/products.tsx:49-56 | "blue" matches the colour "Sky Blue" |
| `ProductsPage.Compare` | client/src/pages/products.tsx:67-80 | negative puts the cheaper product first for price up, the dearer for price down, the later-created for newest, and a best seller before a non-best-seller; zero exactly on ties; the featured order ties every pair |
| `ProductsPage.CompareIsRankDifference` | client/src/pages/products.tsx:67-80 | each comparator is a difference of ranks, so it is antisymmetric and a stable sort by rank follows it |
| `ProductsPage.SortProducts` | client/src/pages/products.tsx:67 | the sorted list is a permutation of the filtered list |
| `ProductsPage.SortProductsOrdered` | client/src/pages/products.tsx:67-80 | no earlier product compares above a later one under the selected comparator |
| `ProductsPage.SortKeysOrder` | client/src/pages/products.tsx:69-74 | `price_low` is non-decreasing in price, `price_high` non-increasing, and `newest` non-increasing in creation time |
| `ProductsPage.BestSellersGrouped` | client/src/pages/products.tsx:75-76 | best sellers come before every other product, and each group keeps its input order |
| `ProductsPage.GroupKeepsOrder` | client/src/pages/products.tsx:75-76 | the products of one best-seller rank come out in their input order |
| `ProductsPage.FeaturedKeepsOrder` | client/src/pages/products.tsx:77-78 | `featured` leaves the order unchanged |
| `ProductsPage.View` | client/src/pages/products.tsx:30-80 | the shown list holds exactly the kept products and is a permutation of the filtered list |
| `FiltersSidebar.Toggle` | client/src/components/filters-sidebar.tsx:66-68 | toggling flips whether x is listed and leaves every other value's membership |
| `FiltersSidebar.ToggleKeepsOthers` | client/src/components/filters-sidebar.tsx:66-68 | the other values keep their relative order |
| `FiltersSidebar.ToggleTwice` | client/src/components/filters-sidebar.tsx:66-68 | toggling an absent value twice restores the list |
| `FiltersSidebar.UpdateFilter` | client/src/components/filters-sidebar.tsx:61-63 | the updated field takes the given value (both ends for the price range), and every other field is unchanged |
| `FiltersSidebar.UpdatesCompose` | client/src/components/filters-sidebar.tsx:61-63 | updates of different fields commute, and a second update of a field overrides the first |
| `FiltersSidebar.ToggleCategory` | client/src/components/filters-sidebar.tsx:65-70 | only the category list changes: x flips in or out, and every other value keeps its membership |
| `FiltersSidebar.ToggleSize` | client/src/components/filters-sidebar.tsx:72-77 | only the size list changes: x flips in or out, and every other value keeps its membership |
| `FiltersSidebar.ToggleColor` | client/src/components/filters-sidebar.tsx:79-84 | only the colour list changes: x flips in or out, and every other value keeps its membership |
| `FiltersSidebar.ClearAllFilters` | client/src/components/filters-sidebar.tsx:86-95 | the cleared state is inactive, spans the slider's range 0 to 5000, sorts by featured, and keeps every product priced within that range |
| `FiltersSidebar.HasActiveFilters` | client/src/components/filters-sidebar.tsx:97-102 | when the clear button is hidden, no list is selected, stock is not required, and every product priced up to 5000 passes the filter |
| `FiltersSidebar.ActiveIgnoresSort` | client/src/components/filters-sidebar.tsx:86-102 | the sort order does not affect `hasActiveFilters`, and the cleared state is inactive |
| `FiltersSidebar.InactiveIsCleared` | client/src/components/filters-sidebar.tsx:86-102 | within the slider's range, a state is inactive exactly when it equals the cleared state up to its sort order |
| `FiltersSidebar.ClearedShowsAll` | client/src/components/filters-sidebar.tsx:86-95 | after clear-all the page shows the whole catalogue in its order, when no price exceeds 5000 |
| `CartHook.FoldsConcat` | client/src/hooks/use-cart.ts:100-101 | the total and the unit count add up over concatenated line lists |
| `CartHook.FoldsSingle` | client/src/hooks/use-cart.ts:100-101 | one line contributes price × quantity to the total and its quantity to the count |
| `CartHook.Total` | client/src/hooks/use-cart.ts:100 | with no negative quantity, the total is not negative |
| `CartHook.ItemCount` | client/src/hooks/use-cart.ts:101 | with no negative quantity the count is not negative, and with quantities of at least one it is at least the number of lines |
| `CartHook.UpdateQuantity` | client/src/hooks/use-cart.ts:84-90 | a quantity of 0 or less sends a remove of the line, and a positive one a patch carrying exactly that quantity |
| `CartHook.UpdateQuantityEffect` | client/src/hooks/use-cart.ts:84-90 | through the hook, a quantity of 0 or less removes the line from the server's cart, and a positive one is stored with nothing else changed |
| `CartHook.AddToCartBody` | client/src/hooks/use-cart.ts:75-82 | product, colour and size are sent unchanged, and the quantity defaults to 1 |
| `CartHook.HookAddsKeepDistinct` | client/src/hooks/use-cart.ts:75-82 | adds from the hook with a colour and a size keep the session's lines distinct by choice |
| `CartHook.CartPanel.constructor` | client/src/hooks/use-cart.ts:19 | the panel starts closed |
| `CartHook.CartPanel.ToggleCart` | client/src/hooks/use-cart.ts:103 | `toggleCart` negates `isOpen` |
| `CartSummary.Shipping` | client/src/components/cart-sidebar.tsx:13 | free exactly above 1500, and 99 otherwise |
| `CartSummary.Tax` | client/src/components/cart-sidebar.tsx:14 | the whole number nearest to 18% of the subtotal, halves rounding up |
| `CartSummary.TaxUnique` | client/src/components/cart-sidebar.tsx:14 | that rounding is the only whole number with this property |
| `CartSummary.FinalTotal` | client/src/components/cart-sidebar.tsx:15 | the final total is at least the subtotal for a non-negative subtotal |
| `CartSummary.FreeShippingHint` | client/src/components/cart-sidebar.tsx:17-150 | the hint shows exactly for a non-empty cart while shipping is charged; the amount is then non-negative and brings the subtotal to exactly 1500, where shipping is still charged |
| `CartSummary.Summarize` | client/src/components/cart-sidebar.tsx:12-144 | no summary for an empty cart; otherwise the subtotal is the hook's total, shipping is 0 exactly above 1500 and 99 otherwise, the tax is within half a unit of 18% of the subtotal, the final total is their sum and at least a non-negative subtotal, and quantities of at least one make the subtotal non-negative |
| `CartSummary.WorkedExamples` | client/src/components/cart-sidebar.tsx:12-17 | 1000 × 2 gives shipping 0, tax 360 and total 2360; 500 × 1 gives 99, 90 and 689; an empty cart has no summary and no hint |

## Left out

- HTTP transport: Express routing, response objects, status codes other than the 404
  replies, the 500 catch-all branches, response headers and `createServer`. Replies are
  `Routes.Reply` values.
- Body validation: the zod schemas are a foreign library. The 400 reply for an invalid
  body is not modelled, and a validated body is a well-typed value. An explicit `null`
  for a seed's `inStock` is not modelled; only a missing value defaults to true.
- `parseInt` of path ids: the handlers take the parsed id, with `None` for NaN.
- Concurrency: the check-then-act race between concurrent `POST /api/cart` requests.
  The model is sequential.
- Floating point: prices are whole units rather than `parseFloat` of decimal strings.
  Tax is exact half-up rounding, and `toFixed(2)` display is not modelled.
- The clock: `new Date()` is the `now` parameter. All seeds share one `now`.
- Seed contents: the sample product literals are a parameter of the constructor.
- The user methods `getUser`, `getUserByUsername` and `createUser`: no route uses them.
- `/api/categories` returns constant counts, and `robots.txt` is a fixed string.
- React machinery: rendering, react-query caching and invalidation, toasts, the
  sidebar's `openSections` state, and the chat and hero components.
- The request helper: it is not part of this model, so it is unknown which session the
  hook's mutations land in. `CartHook.Apply` uses the id-keyed `PATCH` and `DELETE`
  rules, which ignore the session. The hook's `removeFromCart` and `clearCart` are plain
  dispatches to `Routes.Remove` and `Routes.ClearCartRoute`.
- Unicode: `toLowerCase` is ASCII lowering on `seq<char>`.
- CSV output: prices print in canonical decimal form. The CSV is not parsed back,
  because embedded double quotes are not doubled (section 2 of RFC 4180, rule 7).
- XML: the sitemap is the source's string template, with no escaping (the source does
  none).
- Export.CsvLines: states the one-line-per-product layout only for products whose fields
  contain no line break, because a field with a line break splits its row over several
  lines.
- Export.CsvTextColumns: reads a list column back only when no element contains a
  comma, because the export joins with ", " and does not escape commas inside elements.
- FiltersSidebar.InactiveIsCleared: assumes the price range lies within the slider's
  bounds [0, 5000]. Outside them, an inactive state need not equal the cleared one.
