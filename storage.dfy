/** The in-memory store (server/storage.ts): a product catalogue and session-scoped
    cart lines, each a `Map` keyed by ids handed out by a counter that starts at 1.
    The pure functions below are the store's operations on table values; the class
    `MemStorage` performs them in place and is specified by them. */
module Storage {
  import opened Schema
  import opened Seqs
  import opened Text
  import opened OrderedMap

  type Cart = Table<CartItem>
  type Catalog = Table<Product>

  /** Every cart line is stored under its own id. */
  ghost predicate CartValid(c: Cart)
  {
    WellFormed(c) && forall k :: k in c.rows ==> c.rows[k].id == k
  }

  /** Every product is stored under its own id. */
  ghost predicate CatalogValid(t: Catalog)
  {
    WellFormed(t) && forall k :: k in t.rows ==> t.rows[k].id == k
  }

  // ---------------------------------------------------------------------------
  // Defaults applied on insert (the `x || null`, `x || 1`, `x || 0` spreads)

  /** `s || null` on an optional string column: the empty string is falsy. */
  function TextOrNull(s: Option<string>): Option<string>
  {
    if s == Some("") then None else s
  }

  /** `v || null` on a request field: undefined, null and "" all become null. */
  function FieldOrNull(f: Field<string>): (r: Option<string>)
    ensures r.None? <==> f.Absent? || f.Null? || f == Present("")
    ensures r.Some? ==> f == Present(r.value)
  {
    match f
    case Present(v) => if v == "" then None else Some(v)
    case _ => None
  }

  /** `productId || null`: undefined, null and 0 all become null. */
  function IdOrNull(f: Field<int>): (r: Option<int>)
    ensures r.None? <==> f.Absent? || f.Null? || f == Present(0)
    ensures r.Some? ==> f == Present(r.value)
  {
    match f
    case Present(v) => if v == 0 then None else Some(v)
    case _ => None
  }

  /** `quantity || 1`: a missing or zero quantity counts as one. */
  function QuantityOrOne(q: Option<int>): (r: int)
    ensures r == 1 <==> q.None? || q == Some(0) || q == Some(1)
    ensures q.Some? && q.value != 0 ==> r == q.value
  {
    match q
    case Some(n) => if n == 0 then 1 else n
    case None => 1
  }

  /** The row `addToCart` stores for `ins` under `id`. */
  function NewCartItem(ins: InsertCartItem, id: int, now: int): CartItem
  {
    CartItem(id, IdOrNull(ins.productId), QuantityOrOne(ins.quantity),
             FieldOrNull(ins.selectedColor), FieldOrNull(ins.selectedSize), ins.sessionId, now)
  }

  /** The product the store keeps for `ins` under `id`, with its defaults filled in. */
  function FullProduct(ins: InsertProduct, id: int, now: int): (p: Product)
    ensures p.id == id && p.createdAt == now
    ensures p.sku == ins.sku && p.name == ins.name && p.category == ins.category && p.price == ins.price
    ensures p.inStock <==> ins.inStock != Some(false)
    ensures p.stockCount == (if ins.stockCount.Some? then ins.stockCount.value else 0)
    ensures p.description.None? <==> ins.description.None? || ins.description == Some("")
  {
    Product(id, ins.sku, ins.name, TextOrNull(ins.description), ins.category,
            TextOrNull(ins.subcategory), ins.price, ins.originalPrice,
            TextOrNull(ins.fabric), TextOrNull(ins.fit), ins.colors, ins.sizes, ins.images, ins.tags,
            if ins.inStock.Some? then ins.inStock.value else true,
            if ins.stockCount.Some? then ins.stockCount.value else 0,
            now)
  }

  // ---------------------------------------------------------------------------
  // Cart operations

  /** `addToCart`: the line gets the counter's id, which is fresh, and goes last. */
  function AddItem(c: Cart, ins: InsertCartItem, now: int): (r: (Cart, CartItem))
    requires CartValid(c)
    ensures CartValid(r.0)
    ensures r.1.id == c.next && r.1.id !in c.rows && r.0.next == c.next + 1
    ensures forall k :: k in c.rows ==> k < r.1.id
    ensures r.0.rows == c.rows[r.1.id := r.1]
    ensures Values(r.0) == Values(c) + [r.1]
    ensures r.1.sessionId == ins.sessionId && r.1.createdAt == now
    ensures r.1.quantity == QuantityOrOne(ins.quantity)
    ensures r.1.productId == IdOrNull(ins.productId)
    ensures r.1.selectedColor == FieldOrNull(ins.selectedColor)
    ensures r.1.selectedSize == FieldOrNull(ins.selectedSize)
  {
    var item := NewCartItem(ins, c.next, now);
    var c2 := Insert(c, item);
    assert c2.rows == c.rows[item.id := item];
    (c2, item)
  }

  /** `{ ...item, ...updates }`: the supplied fields overwrite, the rest stay. */
  function ApplyUpdate(item: CartItem, u: UpdateCartItem): (r: CartItem)
    ensures r.id == item.id && r.sessionId == item.sessionId && r.createdAt == item.createdAt
    ensures r.quantity == (if u.quantity.Some? then u.quantity.value else item.quantity)
    ensures u.productId.Absent? ==> r.productId == item.productId
    ensures u.productId.Null? ==> r.productId == None
    ensures u.productId.Present? ==> r.productId == Some(u.productId.value)
    ensures u.selectedColor.Absent? ==> r.selectedColor == item.selectedColor
    ensures u.selectedColor.Null? ==> r.selectedColor == None
    ensures u.selectedColor.Present? ==> r.selectedColor == Some(u.selectedColor.value)
    ensures u.selectedSize.Absent? ==> r.selectedSize == item.selectedSize
    ensures u.selectedSize.Null? ==> r.selectedSize == None
    ensures u.selectedSize.Present? ==> r.selectedSize == Some(u.selectedSize.value)
  {
    item.(productId := Overwrite(item.productId, u.productId),
          quantity := if u.quantity.Some? then u.quantity.value else item.quantity,
          selectedColor := Overwrite(item.selectedColor, u.selectedColor),
          selectedSize := Overwrite(item.selectedSize, u.selectedSize))
  }

  /** A spread field: absent keeps the old value, null clears it, a value replaces it. */
  function Overwrite<T>(old_: Option<T>, f: Field<T>): Option<T>
  {
    match f
    case Absent => old_
    case Null => None
    case Present(v) => Some(v)
  }

  /** `updateCartItem`: undefined and no change for an unknown id; otherwise the entry
      is overwritten in place, keeping its position, and nothing else changes. */
  function UpdateItem(c: Cart, id: int, u: UpdateCartItem): (r: (Cart, Option<CartItem>))
    requires CartValid(c)
    ensures CartValid(r.0)
    ensures id !in c.rows ==> r.0 == c && r.1.None?
    ensures id in c.rows ==> r.1 == Some(ApplyUpdate(c.rows[id], u))
    ensures id in c.rows ==> r.0.rows == c.rows[id := r.1.value] && r.0.order == c.order && r.0.next == c.next
  {
    if id !in c.rows then (c, None)
    else
      var updated := ApplyUpdate(c.rows[id], u);
      (Replace(c, id, updated), Some(updated))
  }

  /** `removeFromCart`: true exactly when the id was present; it is gone afterwards and
      every other line is as it was. */
  function RemoveItem(c: Cart, id: int): (r: (Cart, bool))
    requires CartValid(c)
    ensures CartValid(r.0)
    ensures r.1 <==> id in c.rows
    ensures r.0.rows.Keys == c.rows.Keys - {id} && r.0.next == c.next
    ensures forall k :: k in r.0.rows ==> r.0.rows[k] == c.rows[k]
  {
    Delete(c, id)
  }

  /** The ids of the lines belonging to session `s`. */
  function SessionIds(c: Cart, s: string): set<int>
  {
    set k | k in c.rows && c.rows[k].sessionId == s
  }

  /** `clearCart`: deletes exactly the lines of session `s`. */
  function ClearSession(c: Cart, s: string): (r: Cart)
    requires CartValid(c)
    ensures CartValid(r)
    ensures forall k :: k in r.rows <==> k in c.rows && c.rows[k].sessionId != s
    ensures forall k :: k in r.rows ==> r.rows[k] == c.rows[k]
  {
    Without(c, SessionIds(c, s))
  }

  /** The line is in session `s` and its product resolves. */
  predicate Visible(item: CartItem, products: map<int, Product>, s: string)
  {
    item.sessionId == s && item.productId.Some? && item.productId.value in products
  }

  function VisibleIn(products: map<int, Product>, s: string): CartItem -> bool
  {
    (item: CartItem) => Visible(item, products, s)
  }

  /** `items.filter(in session).map(join product).filter(product found)`, in one pass. */
  function JoinItems(items: seq<CartItem>, products: map<int, Product>, s: string): seq<CartLine>
  {
    if items == [] then []
    else
      (if Visible(items[0], products, s) then [CartLine(items[0], products[items[0].productId.value])] else [])
      + JoinItems(items[1..], products, s)
  }

  /** The cart items of joined lines. */
  function Items(lines: seq<CartLine>): (r: seq<CartItem>)
    ensures |r| == |lines| && forall i :: 0 <= i < |lines| ==> r[i] == lines[i].item
  {
    if lines == [] then [] else [lines[0].item] + Items(lines[1..])
  }

  /** A join keeps, in order, exactly the visible lines, each with its own product. */
  lemma {:induction false} JoinSpec(items: seq<CartItem>, products: map<int, Product>, s: string)
    ensures Items(JoinItems(items, products, s)) == Filter(items, VisibleIn(products, s))
    ensures forall i :: 0 <= i < |JoinItems(items, products, s)| ==>
              var l := JoinItems(items, products, s)[i];
              Visible(l.item, products, s) && l.product == products[l.item.productId.value]
  {
    if items != [] {
      JoinSpec(items[1..], products, s);
      var head := if Visible(items[0], products, s) then [CartLine(items[0], products[items[0].productId.value])] else [];
      assert JoinItems(items, products, s) == head + JoinItems(items[1..], products, s);
      ItemsConcat(head, JoinItems(items[1..], products, s));
    }
  }

  lemma {:induction false} ItemsConcat(a: seq<CartLine>, b: seq<CartLine>)
    ensures Items(a + b) == Items(a) + Items(b)
  {
    if a != [] {
      assert (a + b)[1..] == a[1..] + b;
      ItemsConcat(a[1..], b);
    } else {
      assert a + b == b;
    }
  }

  lemma {:induction false} JoinConcat(a: seq<CartItem>, b: seq<CartItem>, products: map<int, Product>, s: string)
    ensures JoinItems(a + b, products, s) == JoinItems(a, products, s) + JoinItems(b, products, s)
  {
    if a == [] {
      assert a + b == b;
    } else {
      assert (a + b)[0] == a[0];
      assert (a + b)[1..] == a[1..] + b;
      JoinConcat(a[1..], b, products, s);
    }
  }

  /** Nothing visible, nothing joined. */
  lemma {:induction false} JoinNoneVisible(items: seq<CartItem>, products: map<int, Product>, s: string)
    requires forall i :: 0 <= i < |items| ==> !Visible(items[i], products, s)
    ensures JoinItems(items, products, s) == []
  {
    if items != [] {
      JoinNoneVisible(items[1..], products, s);
    }
  }

  /** Dropping only lines that are invisible to `s` does not change the join for `s`. */
  lemma {:induction false} JoinIgnoresInvisible(items: seq<CartItem>, keep: CartItem -> bool,
                                                products: map<int, Product>, s: string)
    requires forall i :: 0 <= i < |items| && !keep(items[i]) ==> !Visible(items[i], products, s)
    ensures JoinItems(Filter(items, keep), products, s) == JoinItems(items, products, s)
  {
    if items != [] {
      JoinIgnoresInvisible(items[1..], keep, products, s);
    }
  }

  /** `getCartItems(s)`: the lines of session `s` whose product resolves, in insertion
      order, each paired with that product; orphans are dropped. */
  function Lines(c: Cart, products: map<int, Product>, s: string): (r: seq<CartLine>)
    requires CartValid(c)
    ensures Items(r) == Filter(Values(c), VisibleIn(products, s))
    ensures IsSubseq(Items(r), Values(c))
    ensures forall l :: l in r <==>
              Stored(c, l.item) && Visible(l.item, products, s) && l.product == products[l.item.productId.value]
  {
    var r := JoinItems(Values(c), products, s);
    JoinSpec(Values(c), products, s);
    FilterIsSubseq(Values(c), VisibleIn(products, s));
    forall l ensures l in r <==>
        Stored(c, l.item) && Visible(l.item, products, s) && l.product == products[l.item.productId.value]
    {
      JoinMembers(Values(c), products, s, l);
      CartValuesStored(c, l.item);
    }
    r
  }

  /** A line is in the join exactly when its item is one of the items, visible, and
      paired with its own product. */
  lemma {:induction false} JoinMembers(items: seq<CartItem>, products: map<int, Product>, s: string, l: CartLine)
    ensures l in JoinItems(items, products, s) <==>
              l.item in items && Visible(l.item, products, s) && l.product == products[l.item.productId.value]
  {
    if items != [] {
      JoinMembers(items[1..], products, s, l);
      assert items == [items[0]] + items[1..];
    }
  }

  /** The line is stored under its own id. */
  predicate Stored(c: Cart, item: CartItem)
  {
    item.id in c.rows && c.rows[item.id] == item
  }

  lemma CartValuesStored(c: Cart, item: CartItem)
    requires CartValid(c)
    ensures item in Values(c) <==> Stored(c, item)
  {
    ValuesAreRows(c, item);
  }

  lemma CatalogValuesStored(t: Catalog, p: Product)
    requires CatalogValid(t)
    ensures p in Values(t) <==> p.id in t.rows && t.rows[p.id] == p
  {
    ValuesAreRows(t, p);
  }

  /** The values of a table are exactly its stored entries. */
  lemma ValuesAreRows<V>(t: Table<V>, v: V)
    requires WellFormed(t)
    ensures v in Values(t) <==> exists k :: k in t.rows && t.rows[k] == v
  {
    if exists k :: k in t.rows && t.rows[k] == v {
      var k :| k in t.rows && t.rows[k] == v;
      var i :| 0 <= i < |t.order| && t.order[i] == k;
      assert Values(t)[i] == v;
    }
  }

  /** Store order is id order: the catalogue lists its products by ascending id. */
  lemma CatalogIdsAscend(t: Catalog)
    requires CatalogValid(t)
    ensures forall i, j :: 0 <= i < j < |Values(t)| ==> Values(t)[i].id < Values(t)[j].id
  {
    forall i, j | 0 <= i < j < |Values(t)| ensures Values(t)[i].id < Values(t)[j].id {
      assert Values(t)[i] == t.rows[t.order[i]] && t.order[i] in t.rows;
      assert Values(t)[j] == t.rows[t.order[j]] && t.order[j] in t.rows;
    }
  }

  /** Clearing session `s` empties its view and leaves every other session's view as it was. */
  lemma ClearSessionLines(c: Cart, products: map<int, Product>, s: string, other: string)
    requires CartValid(c)
    ensures Lines(ClearSession(c, s), products, s) == []
    ensures other != s ==> Lines(ClearSession(c, s), products, other) == Lines(c, products, other)
  {
    var ids := SessionIds(c, s);
    var notS := (item: CartItem) => item.sessionId != s;
    ValuesOfFilter(c.order, c.rows, c.rows - ids, NotIn(ids), notS);
    var kept := Values(ClearSession(c, s));
    assert kept == Filter(Values(c), notS);
    FilterAllPass(Values(c), notS);
    JoinNoneVisible(kept, products, s);
    if other != s {
      JoinIgnoresInvisible(Values(c), notS, products, other);
    }
  }

  /** Clearing a session twice is the same as clearing it once. */
  lemma ClearSessionIdempotent(c: Cart, s: string)
    requires CartValid(c)
    ensures ClearSession(ClearSession(c, s), s) == ClearSession(c, s)
  {
    var once := ClearSession(c, s);
    assert SessionIds(once, s) == {};
    assert once.rows - {} == once.rows;
    FilterKeepsAll(once.order, NotIn({}));
  }

  /** Deleting keys that are not there changes nothing. */
  lemma WithoutAbsent<V>(t: Table<V>, ks: set<int>)
    requires WellFormed(t) && forall k :: k in ks ==> k !in t.rows
    ensures Without(t, ks) == t
  {
    forall i | 0 <= i < |t.order| ensures NotIn(ks)(t.order[i]) {
      assert t.order[i] in t.rows;
    }
    FilterKeepsAll(t.order, NotIn(ks));
    assert forall k :: k in t.rows - ks <==> k in t.rows;
    assert forall k :: k in t.rows ==> (t.rows - ks)[k] == t.rows[k];
  }

  // ---------------------------------------------------------------------------
  // Catalogue queries

  function CategoryIs(c: string): Product -> bool
  {
    (p: Product) => Lower(p.category) == Lower(c)
  }

  /** `getProductsByCategory`: exactly the products of category `c`, ignoring case, in order. */
  function ByCategory(ps: seq<Product>, c: string): (r: seq<Product>)
    ensures forall p :: p in r <==> p in ps && Lower(p.category) == Lower(c)
    ensures IsSubseq(r, ps)
  {
    var r := Filter(ps, CategoryIs(c));
    FilterIsSubseq(ps, CategoryIs(c));
    forall p ensures p in r <==> p in ps && Lower(p.category) == Lower(c) {
      FilterMembership(ps, CategoryIs(c), p);
    }
    r
  }

  /** The case of the requested category does not matter. */
  lemma ByCategoryIgnoresCase(ps: seq<Product>, c: string)
    ensures ByCategory(ps, c) == ByCategory(ps, Lower(c))
  {
    LowerIdempotent(c);
    FilterCongruent(ps, CategoryIs(c), CategoryIs(Lower(c)));
  }

  /** Some tag, lowered, includes the lowered query. */
  predicate SomeTagIncludes(tags: Option<seq<string>>, q: string)
  {
    tags.Some? && exists i :: 0 <= i < |tags.value| && Includes(Lower(tags.value[i]), q)
  }

  /** The search predicate on a product for an already-lowered query. */
  predicate Mentions(p: Product, q: string)
  {
    || Includes(Lower(p.name), q)
    || (p.description.Some? && Includes(Lower(p.description.value), q))
    || Includes(Lower(p.category), q)
    || SomeTagIncludes(p.tags, q)
  }

  function MentionsQuery(q: string): Product -> bool
  {
    (p: Product) => Mentions(p, q)
  }

  /** `searchProducts`: the products whose name, description, category or some tag
      contains the query, ignoring case, in store order. */
  function Search(ps: seq<Product>, query: string): (r: seq<Product>)
    ensures forall p :: p in r <==> p in ps && Mentions(p, Lower(query))
    ensures IsSubseq(r, ps)
  {
    var q := Lower(query);
    var r := Filter(ps, MentionsQuery(q));
    FilterIsSubseq(ps, MentionsQuery(q));
    forall p ensures p in r <==> p in ps && Mentions(p, q) {
      FilterMembership(ps, MentionsQuery(q), p);
    }
    r
  }

  // ---------------------------------------------------------------------------
  // Seeding and product creation

  /** `createProduct`: the product gets the counter's id and goes last. */
  function AddProduct(t: Catalog, ins: InsertProduct, now: int): (r: (Catalog, Product))
    requires CatalogValid(t)
    ensures CatalogValid(r.0)
    ensures r.1.id == t.next && r.1.id !in t.rows && r.0.next == t.next + 1
    ensures r.1 == FullProduct(ins, t.next, now)
    ensures Values(r.0) == Values(t) + [r.1]
  {
    var p := FullProduct(ins, t.next, now);
    (Insert(t, p), p)
  }

  /** The catalogue after the seed list has been added one product at a time. */
  function SeedAll(seeds: seq<InsertProduct>, now: int): (t: Catalog)
    ensures CatalogValid(t)
  {
    if seeds == [] then Empty()
    else AddProduct(SeedAll(seeds[..|seeds| - 1], now), seeds[|seeds| - 1], now).0
  }

  /** Seeding one more product is one more `AddProduct`. */
  lemma SeedAllStep(seeds: seq<InsertProduct>, i: int, now: int)
    requires 0 <= i < |seeds|
    ensures SeedAll(seeds[..i + 1], now) == AddProduct(SeedAll(seeds[..i], now), seeds[i], now).0
  {
    assert seeds[..i + 1][..i] == seeds[..i];
  }

  /** The seeded products get the consecutive ids 1, 2, ... in seed order. */
  lemma {:induction false} SeedAllIds(seeds: seq<InsertProduct>, now: int)
    ensures SeedAll(seeds, now).next == |seeds| + 1
    ensures |Values(SeedAll(seeds, now))| == |seeds|
    ensures forall i :: 0 <= i < |seeds| ==> Values(SeedAll(seeds, now))[i] == FullProduct(seeds[i], i + 1, now)
  {
    if seeds != [] {
      var n := |seeds| - 1;
      var init := seeds[..n];
      SeedAllIds(init, now);
      var t := SeedAll(init, now);
      var added := AddProduct(t, seeds[n], now);
      assert SeedAll(seeds, now) == added.0;
      SeedIdsStep(t, added.0, added.1, seeds, now);
    }
  }

  /** The inductive step of `SeedAllIds`: appending the product seeded from the last
      entry extends the id numbering by one. */
  lemma SeedIdsStep(t: Catalog, t2: Catalog, p: Product, seeds: seq<InsertProduct>, now: int)
    requires |seeds| >= 1 && CatalogValid(t) && CatalogValid(t2)
    requires |Values(t)| == |seeds| - 1
    requires forall i :: 0 <= i < |seeds| - 1 ==> Values(t)[i] == FullProduct(seeds[i], i + 1, now)
    requires p == FullProduct(seeds[|seeds| - 1], |seeds|, now)
    requires Values(t2) == Values(t) + [p]
    ensures |Values(t2)| == |seeds|
    ensures forall i :: 0 <= i < |seeds| ==> Values(t2)[i] == FullProduct(seeds[i], i + 1, now)
  {
    forall i | 0 <= i < |seeds| ensures Values(t2)[i] == FullProduct(seeds[i], i + 1, now) {
      if i < |seeds| - 1 {
        assert Values(t2)[i] == Values(t)[i];
      }
    }
  }

  /** Deleting one more key from a table with keys already deleted. */
  lemma DeleteStep<V>(t: Table<V>, done: set<int>, k: int)
    requires WellFormed(t)
    ensures var u := Without(t, done);
            Table(u.rows - {k}, Filter(u.order, NotIn({k})), u.next) == Without(t, done + {k})
  {
    WithoutWithout(t, done, {k});
  }

  /** Deleting lines keeps every remaining line under its own id. */
  lemma CartValidWithout(c: Cart, ks: set<int>)
    requires CartValid(c)
    ensures CartValid(Without(c, ks))
  {
  }

  /** The keys listed in `ks`. */
  function KeysOf(ks: seq<int>): set<int>
  {
    set k | k in ks
  }

  /** One more listed key is one more key in the set. */
  lemma KeysOfSnoc(ks: seq<int>, i: int)
    requires 0 <= i < |ks|
    ensures KeysOf(ks[..i + 1]) == KeysOf(ks[..i]) + {ks[i]}
  {
    assert ks[..i + 1] == ks[..i] + [ks[i]];
  }

  /** The ids picked out of the key order by session are exactly the session's ids. */
  lemma SessionIdsListed(c: Cart, s: string, picked: seq<int>)
    requires CartValid(c)
    requires picked == Filter(c.order, (k: int) => k in c.rows && c.rows[k].sessionId == s)
    ensures KeysOf(picked) == SessionIds(c, s)
  {
    forall k ensures k in KeysOf(picked) <==> k in SessionIds(c, s) {
      FilterMembership(c.order, (k: int) => k in c.rows && c.rows[k].sessionId == s, k);
    }
  }

  // ---------------------------------------------------------------------------

  /** `MemStorage`: the store object. Each `Map` is a field together with its key order,
      and each counter a field; `CatalogTable` and `CartTable` read them back as tables. */
  class MemStorage {
    var products: map<int, Product>
    var productOrder: seq<int>
    var currentProductId: int
    var cartItems: map<int, CartItem>
    var cartOrder: seq<int>
    var currentCartId: int

    function CatalogTable(): Catalog
      reads this
    {
      Table(products, productOrder, currentProductId)
    }

    function CartTable(): Cart
      reads this
    {
      Table(cartItems, cartOrder, currentCartId)
    }

    ghost predicate Valid()
      reads this
    {
      CatalogValid(CatalogTable()) && CartValid(CartTable())
    }

    /** Both maps start empty, both counters at 1, then the seed list is loaded. */
    constructor (seeds: seq<InsertProduct>, now: int)
      ensures Valid()
      ensures CatalogTable() == SeedAll(seeds, now)
      ensures CartTable() == Empty()
    {
      products, productOrder, currentProductId := map[], [], 1;
      cartItems, cartOrder, currentCartId := map[], [], 1;
      new;
      InitializeProducts(seeds, now);
    }

    /** Adds the seed products in order, each under the next id. */
    method InitializeProducts(seeds: seq<InsertProduct>, now: int)
      requires Valid() && CatalogTable() == Empty()
      modifies this
      ensures Valid()
      ensures CatalogTable() == SeedAll(seeds, now)
      ensures CartTable() == old(CartTable())
    {
      var i := 0;
      while i < |seeds|
        invariant 0 <= i <= |seeds|
        invariant Valid()
        invariant CatalogTable() == SeedAll(seeds[..i], now)
        invariant CartTable() == old(CartTable())
      {
        ghost var before := CatalogTable();
        SeedAllStep(seeds, i, now);
        var id := currentProductId;
        currentProductId := currentProductId + 1;
        var fullProduct := FullProduct(seeds[i], id, now);
        products := products[id := fullProduct];
        productOrder := productOrder + [id];
        assert CatalogTable() == AddProduct(before, seeds[i], now).0;
        i := i + 1;
      }
      assert seeds[..i] == seeds;
    }

    /** `getAllProducts`: the catalogue in insertion order. */
    function GetAllProducts(): (r: seq<Product>)
      reads this
      requires Valid()
      ensures |r| == |productOrder|
      ensures forall p :: p in r <==> p.id in products && products[p.id] == p
    {
      var r := Values(CatalogTable());
      forall p ensures p in r <==> p.id in products && products[p.id] == p {
        CatalogValuesStored(CatalogTable(), p);
      }
      r
    }

    /** `getProductById`. */
    function GetProductById(id: int): (r: Option<Product>)
      reads this
      requires Valid()
      ensures r.Some? <==> id in products
      ensures r.Some? ==> r.value == products[id] && r.value.id == id
    {
      if id in products then Some(products[id]) else None
    }

    /** `getProductsByCategory`. */
    function GetProductsByCategory(category: string): (r: seq<Product>)
      reads this
      requires Valid()
      ensures forall p :: p in r <==> p.id in products && products[p.id] == p && Lower(p.category) == Lower(category)
      ensures IsSubseq(r, GetAllProducts())
    {
      ByCategory(GetAllProducts(), category)
    }

    /** `searchProducts`. */
    function SearchProducts(query: string): (r: seq<Product>)
      reads this
      requires Valid()
      ensures forall p :: p in r <==> p.id in products && products[p.id] == p && Mentions(p, Lower(query))
      ensures IsSubseq(r, GetAllProducts())
    {
      Search(GetAllProducts(), query)
    }

    /** `createProduct`. */
    method CreateProduct(ins: InsertProduct, now: int) returns (product: Product)
      requires Valid()
      modifies this
      ensures Valid()
      ensures (CatalogTable(), product) == AddProduct(old(CatalogTable()), ins, now)
      ensures CartTable() == old(CartTable())
    {
      var id := currentProductId;
      currentProductId := currentProductId + 1;
      product := FullProduct(ins, id, now);
      products := products[id := product];
      productOrder := productOrder + [id];
    }

    /** `getCartItems`. */
    function GetCartItems(sessionId: string): (r: seq<CartLine>)
      reads this
      requires Valid()
      ensures forall l :: l in r <==>
                Stored(CartTable(), l.item) && Visible(l.item, products, sessionId)
                && l.product == products[l.item.productId.value]
      ensures IsSubseq(Items(r), Values(CartTable()))
    {
      Lines(CartTable(), products, sessionId)
    }

    /** `addToCart`. */
    method AddToCart(ins: InsertCartItem, now: int) returns (item: CartItem)
      requires Valid()
      modifies this
      ensures Valid()
      ensures (CartTable(), item) == AddItem(old(CartTable()), ins, now)
      ensures CatalogTable() == old(CatalogTable())
    {
      var id := currentCartId;
      currentCartId := currentCartId + 1;
      item := NewCartItem(ins, id, now);
      cartItems := cartItems[id := item];
      cartOrder := cartOrder + [id];
    }

    /** `updateCartItem`. */
    method UpdateCartItem(id: int, updates: UpdateCartItem) returns (r: Option<CartItem>)
      requires Valid()
      modifies this
      ensures Valid()
      ensures (CartTable(), r) == UpdateItem(old(CartTable()), id, updates)
      ensures CatalogTable() == old(CatalogTable())
    {
      if id !in cartItems {
        return None;
      }
      var updatedItem := ApplyUpdate(cartItems[id], updates);
      cartItems := cartItems[id := updatedItem];
      r := Some(updatedItem);
    }

    /** `removeFromCart`. */
    method RemoveFromCart(id: int) returns (removed: bool)
      requires Valid()
      modifies this
      ensures Valid()
      ensures (CartTable(), removed) == RemoveItem(old(CartTable()), id)
      ensures CatalogTable() == old(CatalogTable())
    {
      removed := id in cartItems;
      cartItems := cartItems - {id};
      cartOrder := Filter(cartOrder, NotIn({id}));
      assert CartTable() == Without(old(CartTable()), {id});
    }

    /** `clearCart`: collects the session's ids, then deletes them one by one. */
    method ClearCart(sessionId: string)
      requires Valid()
      modifies this
      ensures Valid()
      ensures CartTable() == ClearSession(old(CartTable()), sessionId)
      ensures CatalogTable() == old(CatalogTable())
    {
      var entries := cartItems;
      var itemsToDelete := Filter(cartOrder, (k: int) => k in entries && entries[k].sessionId == sessionId);
      ghost var start := CartTable();
      WithoutAbsent(start, {});
      assert KeysOf(itemsToDelete[..0]) == {};
      var i := 0;
      while i < |itemsToDelete|
        invariant 0 <= i <= |itemsToDelete|
        invariant CartTable() == Without(start, KeysOf(itemsToDelete[..i]))
        invariant CatalogTable() == old(CatalogTable())
      {
        var id := itemsToDelete[i];
        ghost var before := CartTable();
        DeleteStep(start, KeysOf(itemsToDelete[..i]), id);
        KeysOfSnoc(itemsToDelete, i);
        cartItems := cartItems - {id};
        cartOrder := Filter(cartOrder, NotIn({id}));
        assert CartTable() == Table(before.rows - {id}, Filter(before.order, NotIn({id})), before.next);
        i := i + 1;
      }
      assert itemsToDelete[..i] == itemsToDelete;
      SessionIdsListed(start, sessionId, itemsToDelete);
      CartValidWithout(start, KeysOf(itemsToDelete));
    }
  }
}
