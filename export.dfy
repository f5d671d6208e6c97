/** The two documents built from the catalogue in server/routes.ts: the CSV export
    (`GET /api/products/export/csv`) and the sitemap (`GET /sitemap.xml`). `origin` is
    `${req.protocol}://${req.get('host')}`, supplied by the caller. Prices print in
    canonical decimal form. Fields are wrapped in double quotes as section 2 of RFC 4180
    describes, but embedded quotes are not doubled, so the CSV is not parsed back. */
module Export {
  import opened Schema
  import opened Seqs
  import opened Text
  import opened OrderedMap
  import opened Storage

  // ---------------------------------------------------------------------------
  // CSV

  const CsvHeaders: seq<string> := [
    "ID", "SKU", "Name", "Description", "Category", "Subcategory",
    "Price", "Original Price", "Fabric", "Fit", "Colors", "Sizes",
    "Images", "Tags", "In Stock", "Stock Count", "Product Link"]

  /** `"${s}"`. */
  function Quoted(s: string): (r: string)
    ensures |r| == |s| + 2 && r[0] == '"' && r[|r| - 1] == '"' && r[1..|r| - 1] == s
  {
    "\"" + s + "\""
  }

  predicate IsQuoted(s: string)
  {
    |s| >= 2 && s[0] == '"' && s[|s| - 1] == '"'
  }

  /** The text between a cell's first and last character. */
  function Unquote(s: string): string
  {
    if |s| >= 2 then s[1..|s| - 1] else s
  }

  /** `x || ''` on a nullable text column. */
  function OrEmpty(o: Option<string>): string
  {
    if o.Some? then o.value else ""
  }

  /** `list?.join(', ') || ''` on a nullable text-array column. */
  function ListText(o: Option<seq<string>>): string
  {
    if o.Some? then Join(o.value, ", ") else ""
  }

  /** The product page, `${origin}/product/${id}`. */
  function ProductUrl(origin: string, id: int): string
  {
    origin + "/product/" + IntToString(id)
  }

  /** One product's CSV fields, in header order. */
  function CsvRow(p: Product, origin: string): (r: seq<string>)
    ensures |r| == |CsvHeaders|
  {
    [ IntToString(p.id),
      p.sku,
      Quoted(p.name),
      Quoted(OrEmpty(p.description)),
      p.category,
      OrEmpty(p.subcategory),
      NatToString(p.price),
      if p.originalPrice.Some? then NatToString(p.originalPrice.value) else "",
      OrEmpty(p.fabric),
      OrEmpty(p.fit),
      Quoted(ListText(p.colors)),
      Quoted(ListText(p.sizes)),
      Quoted(ListText(p.images)),
      Quoted(ListText(p.tags)),
      if p.inStock then "Yes" else "No",
      IntToString(p.stockCount),
      Quoted(ProductUrl(origin, p.id)) ]
  }

  /** The columns the export wraps in double quotes. */
  const QuotedColumns: set<int> := {2, 3, 10, 11, 12, 13, 16}

  /** What each column of a row carries: the id and price read back as numbers, the
      free-text and list columns are quoted, an absent original price leaves its column
      empty, stock shows as Yes/No, and the last column quotes the product's page. */
  lemma CsvRowColumns(p: Product, origin: string)
    ensures var r := CsvRow(p, origin);
            && (p.id >= 0 ==> ParseDigits(r[0]) == p.id)
            && ParseDigits(r[6]) == p.price
            && (forall i :: i in QuotedColumns ==> IsQuoted(r[i]))
            && (r[7] == "" <==> p.originalPrice.None?)
            && (r[14] == "Yes" <==> p.inStock)
            && Unquote(r[16]) == ProductUrl(origin, p.id)
  {
    CsvNumberColumns(p, origin);
    CsvQuotedColumns(p, origin);
  }

  lemma CsvNumberColumns(p: Product, origin: string)
    ensures var r := CsvRow(p, origin);
            && (p.id >= 0 ==> ParseDigits(r[0]) == p.id)
            && ParseDigits(r[6]) == p.price
            && (r[7] == "" <==> p.originalPrice.None?)
            && (r[14] == "Yes" <==> p.inStock)
  {
    var r := CsvRow(p, origin);
    assert r[0] == IntToString(p.id) && r[6] == NatToString(p.price);
    assert r[7] == if p.originalPrice.Some? then NatToString(p.originalPrice.value) else "";
    assert r[14] == if p.inStock then "Yes" else "No";
    ParseNatToString(p.price);
    if p.id >= 0 {
      ParseNatToString(p.id);
    }
    if p.originalPrice.Some? {
      assert |NatToString(p.originalPrice.value)| >= 1;
    }
  }

  lemma CsvQuotedColumns(p: Product, origin: string)
    ensures var r := CsvRow(p, origin);
            && (forall i :: i in QuotedColumns ==> IsQuoted(r[i]))
            && Unquote(r[16]) == ProductUrl(origin, p.id)
  {
    var r := CsvRow(p, origin);
    forall i | i in QuotedColumns ensures IsQuoted(r[i]) {
      assert i == 2 || i == 3 || 10 <= i <= 13 || i == 16;
    }
  }

  /** No element contains a comma. */
  predicate CommaFree(xs: seq<string>)
  {
    forall i :: 0 <= i < |xs| ==> ',' !in xs[i]
  }

  /** A quoted list column reads back as its list: splitting the text between the quotes
      on comma-space gives the list when it is non-empty and no element has a comma; an
      absent or empty list leaves nothing between the quotes. */
  predicate ListCellReadsBack(o: Option<seq<string>>, cell: string)
  {
    && IsQuoted(cell)
    && (o.None? || o.value == [] ==> cell == "\"\"")
    && (o.Some? && o.value != [] && CommaFree(o.value) ==> SplitList(Unquote(cell)) == o.value)
  }

  lemma ListCellFromList(o: Option<seq<string>>)
    ensures ListCellReadsBack(o, Quoted(ListText(o)))
  {
    if o.Some? && o.value != [] && CommaFree(o.value) {
      SplitListJoin(o.value);
    }
  }

  /** The text columns of a row give back the product's text: the name and description
      sit between their quotes as stored (nothing for a null description), and each of
      the colour, size, image and tag lists reads back from its column. */
  lemma CsvTextColumns(p: Product, origin: string)
    ensures var r := CsvRow(p, origin);
            && Unquote(r[2]) == p.name
            && (p.description.Some? ==> Unquote(r[3]) == p.description.value)
            && (p.description.None? ==> r[3] == "\"\"")
            && ListCellReadsBack(p.colors, r[10])
            && ListCellReadsBack(p.sizes, r[11])
            && ListCellReadsBack(p.images, r[12])
            && ListCellReadsBack(p.tags, r[13])
  {
    var r := CsvRow(p, origin);
    assert r[2] == Quoted(p.name) && r[3] == Quoted(OrEmpty(p.description));
    assert r[10] == Quoted(ListText(p.colors)) && r[11] == Quoted(ListText(p.sizes));
    assert r[12] == Quoted(ListText(p.images)) && r[13] == Quoted(ListText(p.tags));
    ListCellFromList(p.colors);
    ListCellFromList(p.sizes);
    ListCellFromList(p.images);
    ListCellFromList(p.tags);
  }

  /** `headers.join(',')`. */
  function HeaderLine(): string
  {
    Join(CsvHeaders, ",")
  }

  /** The header line splits back on commas into the 17 column names. */
  lemma HeaderLineColumns()
    ensures SplitOn(HeaderLine(), ',') == CsvHeaders
    ensures |CsvHeaders| == 17
  {
    HeadersAvoidComma();
    SplitJoin(CsvHeaders, ',');
  }

  /** No column name contains a comma. */
  lemma HeadersAvoidComma()
    ensures forall i :: 0 <= i < |CsvHeaders| ==> ',' !in CsvHeaders[i]
  {
  }

  /** `row.join(',')`. */
  function RowText(p: Product, origin: string): string
  {
    Join(CsvRow(p, origin), ",")
  }

  /** `rows.map(row => row.join(','))`: one line per product, in the given order. */
  function RowLines(ps: seq<Product>, origin: string): (r: seq<string>)
    ensures |r| == |ps|
    ensures forall i :: 0 <= i < |ps| ==> r[i] == RowText(ps[i], origin)
  {
    seq(|ps|, i requires 0 <= i < |ps| => RowText(ps[i], origin))
  }

  /** The CSV document: the header line, then the product lines, joined by newlines. It
      opens with the header line, which is all there is for an empty catalogue, and
      otherwise a newline follows it. */
  function Csv(ps: seq<Product>, origin: string): (r: string)
    ensures HeaderLine() <= r
    ensures ps == [] ==> r == HeaderLine()
    ensures ps != [] ==> |r| > |HeaderLine()| && r[|HeaderLine()|] == '\n'
  {
    var rows := RowLines(ps, origin);
    JoinHead(HeaderLine(), rows, "\n");
    assert ps != [] ==> rows != [];
    Join([HeaderLine()] + rows, "\n")
  }

  /** The product's row contains no line break (none of its text fields does). */
  predicate SingleLine(p: Product, origin: string)
  {
    '\n' !in RowText(p, origin)
  }

  /** When no field contains a line break, the document has exactly one header line and
      then one line per product, in store order. */
  lemma CsvLines(ps: seq<Product>, origin: string)
    requires forall i :: 0 <= i < |ps| ==> SingleLine(ps[i], origin)
    ensures var lines := SplitOn(Csv(ps, origin), '\n');
            && |lines| == |ps| + 1
            && lines[0] == HeaderLine()
            && forall i :: 0 <= i < |ps| ==> lines[i + 1] == RowText(ps[i], origin)
  {
    HeaderLineSingle();
    RowLinesSingle(ps, origin);
    SplitFirstAndRest(HeaderLine(), RowLines(ps, origin));
  }

  /** Joining a first line and further lines, none with a line break, by newlines and
      splitting on newlines again gives the same lines. */
  lemma SplitFirstAndRest(first: string, rest: seq<string>)
    requires '\n' !in first && forall i :: 0 <= i < |rest| ==> '\n' !in rest[i]
    ensures SplitOn(Join([first] + rest, "\n"), '\n') == [first] + rest
  {
    var all := [first] + rest;
    assert forall i :: 0 <= i < |all| ==> '\n' !in all[i];
    SplitJoin(all, '\n');
  }

  /** No product line contains a line break. */
  lemma RowLinesSingle(ps: seq<Product>, origin: string)
    requires forall i :: 0 <= i < |ps| ==> SingleLine(ps[i], origin)
    ensures forall i :: 0 <= i < |ps| ==> '\n' !in RowLines(ps, origin)[i]
  {
  }

  lemma HeaderLineSingle()
    ensures '\n' !in HeaderLine()
  {
    assert forall i :: 0 <= i < |CsvHeaders| ==> '\n' !in CsvHeaders[i];
    JoinAvoids(CsvHeaders, ",", '\n');
  }

  // ---------------------------------------------------------------------------
  // Sitemap

  datatype UrlEntry = UrlEntry(url: string, changefreq: string, priority: string)

  /** The paths of the seven pages listed before any product. */
  const FixedPaths: seq<string> := ["", "/products", "/all-products", "/products/Men",
                                    "/products/Women", "/products/Kids", "/products/Accessories"]

  /** The seven pages listed before any product. */
  function FixedUrls(origin: string): (r: seq<UrlEntry>)
    ensures |r| == 7 && forall i :: 0 <= i < 7 ==> r[i].url == origin + FixedPaths[i]
  {
    [ UrlEntry(origin, "daily", "1.0"),
      UrlEntry(origin + "/products", "daily", "0.9"),
      UrlEntry(origin + "/all-products", "daily", "0.9"),
      UrlEntry(origin + "/products/Men", "weekly", "0.8"),
      UrlEntry(origin + "/products/Women", "weekly", "0.8"),
      UrlEntry(origin + "/products/Kids", "weekly", "0.8"),
      UrlEntry(origin + "/products/Accessories", "weekly", "0.8") ]
  }

  /** One weekly, priority 0.7 entry per product, in the given order. */
  function ProductUrls(origin: string, ps: seq<Product>): (r: seq<UrlEntry>)
    ensures |r| == |ps|
    ensures forall i :: 0 <= i < |ps| ==> r[i] == UrlEntry(ProductUrl(origin, ps[i].id), "weekly", "0.7")
  {
    seq(|ps|, i requires 0 <= i < |ps| => UrlEntry(ProductUrl(origin, ps[i].id), "weekly", "0.7"))
  }

  /** The sitemap's URL list: the seven fixed pages, then one entry per product. */
  function SitemapUrls(origin: string, ps: seq<Product>): (r: seq<UrlEntry>)
    ensures |r| == 7 + |ps|
    ensures r[..7] == FixedUrls(origin)
    ensures forall i :: 0 <= i < |ps| ==> r[7 + i] == UrlEntry(ProductUrl(origin, ps[i].id), "weekly", "0.7")
  {
    FixedUrls(origin) + ProductUrls(origin, ps)
  }

  function Urls(entries: seq<UrlEntry>): (r: seq<string>)
    ensures |r| == |entries| && forall i :: 0 <= i < |entries| ==> r[i] == entries[i].url
  {
    seq(|entries|, i requires 0 <= i < |entries| => entries[i].url)
  }

  function Ids(ps: seq<Product>): (r: seq<int>)
    ensures |r| == |ps| && forall i :: 0 <= i < |ps| ==> r[i] == ps[i].id
  {
    seq(|ps|, i requires 0 <= i < |ps| => ps[i].id)
  }

  /** Different tails after a common prefix give different strings. */
  lemma PrefixDiffers(x: string, y: string, z: string)
    requires y != z
    ensures x + y != x + z
  {
    assert y == (x + y)[|x|..];
    assert z == (x + z)[|x|..];
  }

  /** Distinct product ids give a sitemap in which no URL is listed twice. */
  lemma SitemapUrlsDistinct(origin: string, ps: seq<Product>)
    requires Distinct(Ids(ps))
    ensures Distinct(Urls(SitemapUrls(origin, ps)))
  {
    var entries := SitemapUrls(origin, ps);
    var us := Urls(entries);
    forall i | 0 <= i < 7 ensures us[i] == origin + FixedPaths[i] {
      assert entries[i] == entries[..7][i];
    }
    forall i, j | 0 <= i < j < |us| ensures us[i] != us[j] {
      if j < 7 {
        FixedPathsDistinct(origin, i, j);
      } else if i < 7 {
        ProductUrlNotFixed(origin, ps[j - 7].id, i);
      } else {
        assert Ids(ps)[i - 7] != Ids(ps)[j - 7];
        ProductUrlsDiffer(origin, ps[i - 7].id, ps[j - 7].id);
      }
    }
  }

  lemma FixedPathsDistinct(origin: string, i: int, j: int)
    requires 0 <= i < j < 7
    ensures origin + FixedPaths[i] != origin + FixedPaths[j]
  {
    PrefixDiffers(origin, FixedPaths[i], FixedPaths[j]);
  }

  /** A product page is none of the fixed pages. */
  lemma ProductUrlNotFixed(origin: string, id: int, i: int)
    requires 0 <= i < 7
    ensures ProductUrl(origin, id) != origin + FixedPaths[i]
  {
    var d := IntToString(id);
    var tail := "/product/" + d;
    assert ProductUrl(origin, id) == origin + tail;
    assert |d| >= 1 by {
      if id >= 0 {
        assert |NatToString(id)| >= 1;
      }
    }
    assert tail != FixedPaths[i] by {
      if i == 0 || i == 1 {
        assert |tail| != |FixedPaths[i]|;
      } else if i == 2 {
        assert tail[1] != FixedPaths[i][1];
      } else {
        assert tail[8] != FixedPaths[i][8];
      }
    }
    PrefixDiffers(origin, tail, FixedPaths[i]);
  }

  /** Different ids give different product pages. */
  lemma ProductUrlsDiffer(origin: string, a: int, b: int)
    requires a != b
    ensures ProductUrl(origin, a) != ProductUrl(origin, b)
  {
    var pre := origin + "/product/";
    assert ProductUrl(origin, a) == pre + IntToString(a);
    assert ProductUrl(origin, b) == pre + IntToString(b);
    IntToStringInjectiveContra(a, b);
    PrefixDiffers(pre, IntToString(a), IntToString(b));
  }

  lemma IntToStringInjectiveContra(a: int, b: int)
    requires a != b
    ensures IntToString(a) != IntToString(b)
  {
    if IntToString(a) == IntToString(b) {
      IntToStringInjective(a, b);
    }
  }

  /** `<loc>${url}</loc>`. */
  function Loc(url: string): string
  {
    "<loc>" + url + "</loc>"
  }

  /** The sitemap of a store's catalogue lists no URL twice. */
  lemma CatalogSitemapDistinct(t: Catalog, origin: string)
    requires CatalogValid(t)
    ensures Distinct(Urls(SitemapUrls(origin, Values(t))))
  {
    CatalogIdsAscend(t);
    SitemapUrlsDistinct(origin, Values(t));
  }

  /** One `<url>` element. */
  function UrlXml(e: UrlEntry): string
  {
    "  <url>\n    " + Loc(e.url)
    + ("\n    <changefreq>" + e.changefreq + "</changefreq>\n    <priority>" + e.priority + "</priority>\n  </url>")
  }

  function UrlsXml(entries: seq<UrlEntry>): (r: seq<string>)
    ensures |r| == |entries| && forall i :: 0 <= i < |entries| ==> r[i] == UrlXml(entries[i])
  {
    seq(|entries|, i requires 0 <= i < |entries| => UrlXml(entries[i]))
  }

  const XmlHead: string := "<?xml version=\"1.0\" encoding=\"UTF-8\"?>\n<urlset xmlns=\"http://www.sitemaps.org/schemas/sitemap/0.9\">\n"
  const XmlTail: string := "\n</urlset>"

  /** The sitemap document: the XML declaration and the opening `urlset` tag first, the
      closing tag last. */
  function SitemapXml(origin: string, ps: seq<Product>): (r: string)
    ensures XmlHead <= r
    ensures |r| >= |XmlHead| + |XmlTail| && r[|r| - |XmlTail|..] == XmlTail
  {
    XmlHead + Join(UrlsXml(SitemapUrls(origin, ps)), "\n") + XmlTail
  }

  /** Every product's page appears in the sitemap document as a `<loc>`. */
  lemma SitemapListsProducts(origin: string, ps: seq<Product>, i: int)
    requires 0 <= i < |ps|
    ensures Includes(SitemapXml(origin, ps), Loc(ProductUrl(origin, ps[i].id)))
  {
    var entries := SitemapUrls(origin, ps);
    var parts := UrlsXml(entries);
    var e := entries[7 + i];
    var loc := Loc(e.url);
    assert e.url == ProductUrl(origin, ps[i].id);
    IncludesMiddle("  <url>\n    ", loc,
      "\n    <changefreq>" + e.changefreq + "</changefreq>\n    <priority>" + e.priority + "</priority>\n  </url>");
    assert Includes(parts[7 + i], loc);
    JoinHasPart(parts, "\n", 7 + i);
    var pre, post :| Join(parts, "\n") == pre + parts[7 + i] + post;
    IncludesWithin(parts[7 + i], loc, pre, post);
    IncludesWithin(Join(parts, "\n"), loc, XmlHead, XmlTail);
  }
}
