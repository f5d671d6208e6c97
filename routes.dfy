/** The decision logic of the HTTP handlers (server/routes.ts): which query a product
    listing runs, which session a cart request belongs to, the merge-on-add rule of
    `POST /api/cart`, and the not-found replies of `PATCH` and `DELETE`. Transport,
    status plumbing and body validation are not modelled; a validated body is a value. */
module Routes {
  import opened Schema
  import opened Seqs
  import opened Text
  import opened OrderedMap
  import opened Storage

  /** A handler's reply: a JSON body, or 404. */
  datatype Reply<T> = Ok(body: T) | NotFound

  // ---------------------------------------------------------------------------
  // Sessions

  const DefaultSession: string := "default-session"

  /** `req.headers["session-id"] || "default-session"`: a missing or empty header
      falls back to the shared default session. */
  function SessionOf(header: Option<string>): (r: string)
    ensures r != ""
    ensures header.Some? && header.value != "" ==> r == header.value
    ensures header.None? || header == Some("") ==> r == DefaultSession
  {
    if header.Some? && header.value != "" then header.value else DefaultSession
  }

  // ---------------------------------------------------------------------------
  // GET /api/products

  /** The `category` and `search` query parameters, when present. */
  datatype ProductQuery = ProductQuery(category: Option<string>, search: Option<string>)

  /** A query parameter that is present and truthy (not the empty string). */
  predicate Given(o: Option<string>)
  {
    o.Some? && o.value != ""
  }

  /** The store query a listing request runs. */
  datatype Listing = BySearch(query: string) | InCategory(category: string) | Everything

  /** `if (search) … else if (category) … else …`. */
  function Dispatch(q: ProductQuery): (r: Listing)
    ensures r.BySearch? <==> Given(q.search)
    ensures r.BySearch? ==> r.query == q.search.value
    ensures r.InCategory? <==> !Given(q.search) && Given(q.category)
    ensures r.InCategory? ==> r.category == q.category.value
  {
    if Given(q.search) then BySearch(q.search.value)
    else if Given(q.category) then InCategory(q.category.value)
    else Everything
  }

  /** The listing for `q` over the catalogue `ps`, in store order. */
  function ListProducts(ps: seq<Product>, q: ProductQuery): (r: seq<Product>)
    ensures IsSubseq(r, ps)
    ensures Given(q.search) ==>
              forall p :: p in r <==> p in ps && Mentions(p, Lower(q.search.value))
    ensures !Given(q.search) && Given(q.category) ==>
              forall p :: p in r <==> p in ps && Lower(p.category) == Lower(q.category.value)
    ensures !Given(q.search) && !Given(q.category) ==> r == ps
  {
    SubseqRefl(ps);
    match Dispatch(q)
    case BySearch(s) => Search(ps, s)
    case InCategory(c) => ByCategory(ps, c)
    case Everything => ps
  }

  /** A search parameter wins: the category parameter is then ignored. */
  lemma SearchOverridesCategory(ps: seq<Product>, search: string, c1: Option<string>, c2: Option<string>)
    requires search != ""
    ensures ListProducts(ps, ProductQuery(c1, Some(search))) == ListProducts(ps, ProductQuery(c2, Some(search)))
    ensures ListProducts(ps, ProductQuery(c1, Some(search))) == Search(ps, search)
  {
  }

  /** An empty search parameter counts as absent. */
  lemma EmptySearchIgnored(ps: seq<Product>, c: Option<string>)
    ensures ListProducts(ps, ProductQuery(c, Some(""))) == ListProducts(ps, ProductQuery(c, None))
  {
  }

  /** `GET /api/products`, served from the store. */
  function GetProductsRoute(st: MemStorage, q: ProductQuery): (r: seq<Product>)
    reads st
    requires st.Valid()
    ensures IsSubseq(r, st.GetAllProducts())
    ensures !Given(q.search) && !Given(q.category) ==> r == st.GetAllProducts()
  {
    ListProducts(st.GetAllProducts(), q)
  }

  // ---------------------------------------------------------------------------
  // GET /api/products/:id

  /** `parseInt(req.params.id)` is `None` when it yields NaN, which no key equals. */
  function GetProductRoute(st: MemStorage, id: Option<int>): (r: Reply<Product>)
    reads st
    requires st.Valid()
    ensures r.NotFound? <==> id.None? || id.value !in st.products
    ensures r.Ok? ==> r.body == st.products[id.value] && r.body.id == id.value
  {
    if id.None? then NotFound
    else
      match st.GetProductById(id.value)
      case Some(p) => Ok(p)
      case None => NotFound
  }

  // ---------------------------------------------------------------------------
  // GET and DELETE /api/cart

  /** `GET /api/cart`: the joined lines of the caller's session. */
  function GetCartRoute(st: MemStorage, header: Option<string>): (r: seq<CartLine>)
    reads st
    requires st.Valid()
    ensures forall l :: l in r <==>
              Stored(st.CartTable(), l.item) && l.item.sessionId == SessionOf(header)
              && l.item.productId.Some? && l.item.productId.value in st.products
              && l.product == st.products[l.item.productId.value]
  {
    st.GetCartItems(SessionOf(header))
  }

  /** `DELETE /api/cart`: clears the caller's session. */
  method ClearCartRoute(st: MemStorage, header: Option<string>) returns (message: string)
    requires st.Valid()
    modifies st
    ensures st.Valid()
    ensures st.CartTable() == ClearSession(old(st.CartTable()), SessionOf(header))
    ensures st.CatalogTable() == old(st.CatalogTable())
    ensures message == "Cart cleared"
  {
    st.ClearCart(SessionOf(header));
    message := "Cart cleared";
  }

  // ---------------------------------------------------------------------------
  // POST /api/cart: merge on add

  /** The request body, before the header's session is spread over it. */
  datatype CartBody = CartBody(productId: Field<int>, quantity: Option<int>,
                               selectedColor: Field<string>, selectedSize: Field<string>)

  /** `{ ...req.body, sessionId }`: the header's session replaces any in the body. */
  function WithSession(body: CartBody, sessionId: string): (v: InsertCartItem)
    ensures v.sessionId == sessionId
    ensures v.productId == body.productId && v.quantity == body.quantity
    ensures v.selectedColor == body.selectedColor && v.selectedSize == body.selectedSize
  {
    InsertCartItem(body.productId, body.quantity, body.selectedColor, body.selectedSize, sessionId)
  }

  /** `stored === sent`, where the stored column is a value or null and the request field
      may also be left out (undefined, which equals nothing stored). */
  predicate StrictEquals<T(==)>(stored: Option<T>, sent: Field<T>)
  {
    match sent
    case Absent => false
    case Null => stored.None?
    case Present(x) => stored == Some(x)
  }

  /** The line has the requested product, colour and size, compared raw. */
  predicate SameChoice(item: CartItem, v: InsertCartItem)
  {
    && StrictEquals(item.productId, v.productId)
    && StrictEquals(item.selectedColor, v.selectedColor)
    && StrictEquals(item.selectedSize, v.selectedSize)
  }

  /** `existingItems.find(...)`: the first line with the same choice. */
  function FindMatch(lines: seq<CartLine>, v: InsertCartItem): (r: Option<CartLine>)
    ensures r.None? <==> forall i :: 0 <= i < |lines| ==> !SameChoice(lines[i].item, v)
    ensures r.Some? ==> r.value in lines && SameChoice(r.value.item, v)
    ensures r.Some? ==> exists i :: 0 <= i < |lines| && lines[i] == r.value
                                     && forall j :: 0 <= j < i ==> !SameChoice(lines[j].item, v)
  {
    if lines == [] then None
    else if SameChoice(lines[0].item, v) then Some(lines[0])
    else
      var r := FindMatch(lines[1..], v);
      if r.Some? then
        var i :| 0 <= i < |lines[1..]| && lines[1..][i] == r.value
                 && forall j :: 0 <= j < i ==> !SameChoice(lines[1..][j].item, v);
        NoneBefore(lines, v, i);
        assert lines[i + 1] == r.value;
        r
      else
        NoneBefore(lines, v, |lines| - 1);
        r
  }

  /** A miss at the head followed by `i` misses in the tail is `i + 1` misses. */
  lemma NoneBefore(lines: seq<CartLine>, v: InsertCartItem, i: nat)
    requires lines != [] && !SameChoice(lines[0].item, v) && i < |lines|
    requires forall j :: 0 <= j < i ==> !SameChoice(lines[1..][j].item, v)
    ensures forall j :: 0 <= j < i + 1 ==> !SameChoice(lines[j].item, v)
  {
    forall j | 0 <= j < i + 1 ensures !SameChoice(lines[j].item, v) {
      if j > 0 {
        assert lines[j] == lines[1..][j - 1];
      }
    }
  }

  /** The session's first resolving line with the requested choice, if any. */
  function Existing(c: Cart, products: map<int, Product>, v: InsertCartItem): (r: Option<CartLine>)
    requires CartValid(c)
    ensures r.Some? ==> Stored(c, r.value.item) && Visible(r.value.item, products, v.sessionId)
                        && SameChoice(r.value.item, v)
    ensures r.None? <==> forall k :: k in c.rows && Visible(c.rows[k], products, v.sessionId)
                                     ==> !SameChoice(c.rows[k], v)
  {
    var r := FindMatch(Lines(c, products, v.sessionId), v);
    LinesNoMatch(c, products, v);
    r
  }

  /** No joined line of the session has the choice exactly when no stored line that is
      visible to the session has it. */
  lemma LinesNoMatch(c: Cart, products: map<int, Product>, v: InsertCartItem)
    requires CartValid(c)
    ensures (forall i :: 0 <= i < |Lines(c, products, v.sessionId)| ==>
               !SameChoice(Lines(c, products, v.sessionId)[i].item, v))
        <==> (forall k :: k in c.rows && Visible(c.rows[k], products, v.sessionId) ==> !SameChoice(c.rows[k], v))
  {
    var lines := Lines(c, products, v.sessionId);
    if forall i :: 0 <= i < |lines| ==> !SameChoice(lines[i].item, v) {
      forall k | k in c.rows && Visible(c.rows[k], products, v.sessionId)
        ensures !SameChoice(c.rows[k], v)
      {
        var l := CartLine(c.rows[k], products[c.rows[k].productId.value]);
        assert l in lines;
      }
    }
    if forall k :: k in c.rows && Visible(c.rows[k], products, v.sessionId) ==> !SameChoice(c.rows[k], v) {
      forall i | 0 <= i < |lines| ensures !SameChoice(lines[i].item, v) {
        assert lines[i] in lines;
      }
    }
  }

  /** The update the handler sends for a match: only the quantity, raised by the request's. */
  function MergeUpdate(e: CartItem, v: InsertCartItem): UpdateCartItem
  {
    UpdateCartItem(Absent, Some(e.quantity + QuantityOrOne(v.quantity)), Absent, Absent)
  }

  /** `POST /api/cart` on the cart `c`: if the session has a resolving line with the same
      product, colour and size, that line's quantity grows by the requested quantity (or 1)
      and no row is added; otherwise a new row is added as `addToCart` builds it. */
  function Post(c: Cart, products: map<int, Product>, v: InsertCartItem, now: int): (r: (Cart, CartItem))
    requires CartValid(c)
    ensures CartValid(r.0)
    ensures Existing(c, products, v).Some? ==>
              var e := Existing(c, products, v).value.item;
              && r.1 == e.(quantity := e.quantity + QuantityOrOne(v.quantity))
              && r.0.rows == c.rows[e.id := r.1] && r.0.order == c.order && r.0.next == c.next
    ensures Existing(c, products, v).None? ==>
              && r.1 == NewCartItem(v, c.next, now) && c.next !in c.rows
              && r.0.rows == c.rows[c.next := r.1] && r.0.next == c.next + 1
              && Values(r.0) == Values(c) + [r.1]
  {
    match Existing(c, products, v)
    case Some(l) =>
      var u := UpdateItem(c, l.item.id, MergeUpdate(l.item, v));
      (u.0, u.1.value)
    case None => AddItem(c, v, now)
  }

  /** `POST /api/cart` against the store: reads the session's joined cart, then either
      updates the matching line or adds a new one. */
  method PostCartRoute(st: MemStorage, header: Option<string>, body: CartBody, now: int)
    returns (item: CartItem)
    requires st.Valid()
    modifies st
    ensures st.Valid()
    ensures (st.CartTable(), item)
         == Post(old(st.CartTable()), old(st.products), WithSession(body, SessionOf(header)), now)
    ensures st.CatalogTable() == old(st.CatalogTable())
  {
    var sessionId := SessionOf(header);
    var validatedData := WithSession(body, sessionId);
    var existingItems := st.GetCartItems(sessionId);
    var existingItem := FindMatch(existingItems, validatedData);
    assert existingItem == Existing(st.CartTable(), st.products, validatedData);
    if existingItem.Some? {
      var e := existingItem.value.item;
      var updatedItem := st.UpdateCartItem(e.id, MergeUpdate(e, validatedData));
      item := updatedItem.value;
    } else {
      item := st.AddToCart(validatedData, now);
    }
  }

  // ---------------------------------------------------------------------------
  // Properties of the merge rule

  /** A request whose product does not resolve never merges: it always adds a row, even
      when the session already holds an orphaned row with the same choice. */
  lemma PostUnresolvedInserts(c: Cart, products: map<int, Product>, v: InsertCartItem, now: int)
    requires CartValid(c)
    requires !(v.productId.Present? && v.productId.value in products)
    ensures Post(c, products, v, now).0.next == c.next + 1
    ensures Post(c, products, v, now).0.rows.Keys == c.rows.Keys + {c.next}
  {
    var e := Existing(c, products, v);
    if e.Some? {
      assert false;
    }
  }

  /** A line's product, colour and size: what the merge rule compares. */
  datatype Choice = Choice(productId: Option<int>, selectedColor: Option<string>, selectedSize: Option<string>)

  function ChoiceOf(item: CartItem): Choice
  {
    Choice(item.productId, item.selectedColor, item.selectedSize)
  }

  /** The choices of joined lines, in order. */
  function Choices(lines: seq<CartLine>): (r: seq<Choice>)
    ensures |r| == |lines| && forall i :: 0 <= i < |lines| ==> r[i] == ChoiceOf(lines[i].item)
  {
    seq(|lines|, i requires 0 <= i < |lines| => ChoiceOf(lines[i].item))
  }

  /** Colour and size are sent with non-empty values, so they are stored as sent. */
  predicate FilledIn(v: InsertCartItem)
  {
    && v.selectedColor.Present? && v.selectedColor.value != ""
    && v.selectedSize.Present? && v.selectedSize.value != ""
  }

  /** Two lines that differ at most in quantity. */
  predicate SameButQuantity(a: CartItem, b: CartItem)
  {
    a.(quantity := 0) == b.(quantity := 0)
  }

  /** Joins of item lists that agree up to quantities list the same choices. */
  lemma {:induction false} JoinChoices(a: seq<CartItem>, b: seq<CartItem>, products: map<int, Product>, s: string)
    requires |a| == |b| && forall i :: 0 <= i < |a| ==> SameButQuantity(a[i], b[i])
    ensures Choices(JoinItems(a, products, s)) == Choices(JoinItems(b, products, s))
  {
    if a != [] {
      assert SameButQuantity(a[0], b[0]);
      assert a[0].sessionId == b[0].sessionId && a[0].productId == b[0].productId;
      assert ChoiceOf(a[0]) == ChoiceOf(b[0]);
      JoinChoices(a[1..], b[1..], products, s);
      var ha := if Visible(a[0], products, s) then [CartLine(a[0], products[a[0].productId.value])] else [];
      var hb := if Visible(b[0], products, s) then [CartLine(b[0], products[b[0].productId.value])] else [];
      assert JoinItems(a, products, s) == ha + JoinItems(a[1..], products, s);
      assert JoinItems(b, products, s) == hb + JoinItems(b[1..], products, s);
      assert Choices(ha) == Choices(hb);
      ChoicesConcat(ha, JoinItems(a[1..], products, s));
      ChoicesConcat(hb, JoinItems(b[1..], products, s));
    }
  }

  lemma ChoicesConcat(a: seq<CartLine>, b: seq<CartLine>)
    ensures Choices(a + b) == Choices(a) + Choices(b)
  {
  }

  /** Joins of item lists that differ only where neither item is visible to `s` agree. */
  lemma {:induction false} JoinSameVisible(a: seq<CartItem>, b: seq<CartItem>, products: map<int, Product>, s: string)
    requires |a| == |b|
    requires forall i :: 0 <= i < |a| ==> a[i] == b[i] || (!Visible(a[i], products, s) && !Visible(b[i], products, s))
    ensures JoinItems(a, products, s) == JoinItems(b, products, s)
  {
    if a != [] {
      JoinSameVisible(a[1..], b[1..], products, s);
    }
  }

  /** The values of the cart after the entry under `id` is overwritten by `x`. */
  lemma ValuesReplaced(c: Cart, c2: Cart, id: int, x: CartItem)
    requires CartValid(c) && CartValid(c2) && id in c.rows
    requires c2.rows == c.rows[id := x] && c2.order == c.order
    ensures |Values(c2)| == |Values(c)|
    ensures forall i :: 0 <= i < |Values(c)| ==>
              Values(c2)[i] == (if c.order[i] == id then x else Values(c)[i])
  {
  }

  /** The merge changes one line's quantity, so the session's choices stay as they were. */
  lemma MergeKeepsChoices(c: Cart, products: map<int, Product>, v: InsertCartItem, now: int, s: string)
    requires CartValid(c) && Existing(c, products, v).Some?
    ensures Choices(Lines(Post(c, products, v, now).0, products, s)) == Choices(Lines(c, products, s))
  {
    var e := Existing(c, products, v).value.item;
    var r := Post(c, products, v, now);
    ValuesReplaced(c, r.0, e.id, r.1);
    forall i | 0 <= i < |Values(c)| ensures SameButQuantity(Values(r.0)[i], Values(c)[i]) {
      if c.order[i] == e.id {
        assert Values(c)[i] == c.rows[e.id] == e;
      }
    }
    JoinSpec(Values(r.0), products, s);
    JoinChoices(Values(r.0), Values(c), products, s);
  }

  /** A post in one session leaves every other session's view as it was. */
  lemma PostOtherSessions(c: Cart, products: map<int, Product>, v: InsertCartItem, now: int, other: string)
    requires CartValid(c) && other != v.sessionId
    ensures Lines(Post(c, products, v, now).0, products, other) == Lines(c, products, other)
  {
    var r := Post(c, products, v, now);
    if Existing(c, products, v).Some? {
      var e := Existing(c, products, v).value.item;
      assert e.id in c.rows && c.rows[e.id] == e && e.sessionId == v.sessionId;
      ReplaceInvisible(c, r.0, e.id, r.1, products, other);
    } else {
      assert r.1.sessionId == v.sessionId;
      AppendInvisible(c, r.0, r.1, products, other);
    }
  }

  /** Appending a row that another session cannot see leaves that session's view
      unchanged. */
  lemma AppendInvisible(c: Cart, c2: Cart, x: CartItem, products: map<int, Product>, s: string)
    requires CartValid(c) && CartValid(c2)
    requires Values(c2) == Values(c) + [x] && x.sessionId != s
    ensures Lines(c2, products, s) == Lines(c, products, s)
  {
    JoinConcat(Values(c), [x], products, s);
  }

  /** Overwriting a row that another session cannot see, with a row it cannot see
      either, leaves that session's view unchanged. */
  lemma ReplaceInvisible(c: Cart, c2: Cart, id: int, x: CartItem, products: map<int, Product>, s: string)
    requires CartValid(c) && CartValid(c2) && id in c.rows
    requires c2.rows == c.rows[id := x] && c2.order == c.order
    requires c.rows[id].sessionId != s && x.sessionId != s
    ensures Lines(c2, products, s) == Lines(c, products, s)
  {
    ValuesReplaced(c, c2, id, x);
    forall i | 0 <= i < |Values(c)|
      ensures Values(c2)[i] == Values(c)[i]
           || (!Visible(Values(c2)[i], products, s) && !Visible(Values(c)[i], products, s))
    {
      if c.order[i] == id {
        assert Values(c)[i] == c.rows[id];
      }
    }
    JoinSameVisible(Values(c2), Values(c), products, s);
  }

  /** For requests that name a colour and a size, a session never holds two resolving lines
      with the same product, colour and size. */
  lemma PostKeepsChoicesDistinct(c: Cart, products: map<int, Product>, v: InsertCartItem, now: int)
    requires CartValid(c) && FilledIn(v)
    requires Distinct(Choices(Lines(c, products, v.sessionId)))
    ensures Distinct(Choices(Lines(Post(c, products, v, now).0, products, v.sessionId)))
  {
    var s := v.sessionId;
    var r := Post(c, products, v, now);
    if Existing(c, products, v).Some? {
      MergeKeepsChoices(c, products, v, now, s);
    } else {
      var old_ := Lines(c, products, s);
      JoinConcat(Values(c), [r.1], products, s);
      var added := JoinItems([r.1], products, s);
      assert Lines(r.0, products, s) == old_ + added;
      ChoicesConcat(old_, added);
      if Visible(r.1, products, s) {
        assert added == [CartLine(r.1, products[r.1.productId.value])];
        NewChoiceFresh(c, products, v, r.1, now);
      }
    }
  }

  /** With no match, the new line's choice differs from that of every line the session
      shows. */
  lemma NewChoiceFresh(c: Cart, products: map<int, Product>, v: InsertCartItem, x: CartItem, now: int)
    requires CartValid(c) && FilledIn(v) && Existing(c, products, v).None?
    requires x == NewCartItem(v, c.next, now)
    ensures forall i :: 0 <= i < |Lines(c, products, v.sessionId)| ==>
              Choices(Lines(c, products, v.sessionId))[i] != ChoiceOf(x)
  {
    var old_ := Lines(c, products, v.sessionId);
    forall i | 0 <= i < |old_| ensures Choices(old_)[i] != ChoiceOf(x) {
      var l := old_[i];
      assert l in old_;
      assert Stored(c, l.item) && Visible(l.item, products, v.sessionId);
      assert !SameChoice(c.rows[l.item.id], v);
    }
  }

  /** A post that finds no match appends the new line to the session's view when its
      product resolves. */
  lemma PostAppends(c: Cart, products: map<int, Product>, v: InsertCartItem, now: int)
    requires CartValid(c) && Existing(c, products, v).None?
    requires v.productId.Present? && v.productId.value != 0 && v.productId.value in products
    ensures var r := Post(c, products, v, now);
            Lines(r.0, products, v.sessionId)
            == Lines(c, products, v.sessionId) + [CartLine(r.1, products[v.productId.value])]
  {
    var r := Post(c, products, v, now);
    var s := v.sessionId;
    JoinConcat(Values(c), [r.1], products, s);
    assert r.1.productId == Some(v.productId.value) && r.1.sessionId == s;
    assert JoinItems([r.1], products, s) == [CartLine(r.1, products[v.productId.value])];
  }

  /** With no empty colour stored, a post carrying an empty colour finds no match, and the
      line it adds stores no empty colour either. */
  lemma EmptyColourInserts(c: Cart, products: map<int, Product>, v: InsertCartItem, now: int)
    requires CartValid(c) && v.selectedColor == Present("")
    requires forall k :: k in c.rows ==> c.rows[k].selectedColor != Some("")
    ensures Existing(c, products, v).None?
    ensures var c2 := Post(c, products, v, now).0;
            forall k :: k in c2.rows ==> c2.rows[k].selectedColor != Some("")
  {
  }

  /** An empty colour is stored as null but compared raw, so posting it twice when no line
      holds an empty colour adds two resolving lines with the same choice. */
  lemma EmptyColourDuplicates(c: Cart, products: map<int, Product>, v: InsertCartItem, now1: int, now2: int)
    requires CartValid(c) && v.selectedColor == Present("")
    requires v.productId.Present? && v.productId.value != 0 && v.productId.value in products
    requires forall k :: k in c.rows ==> c.rows[k].selectedColor != Some("")
    ensures var c2 := Post(Post(c, products, v, now1).0, products, v, now2).0;
            !Distinct(Choices(Lines(c2, products, v.sessionId)))
  {
    var s := v.sessionId;
    var p := products[v.productId.value];
    EmptyColourInserts(c, products, v, now1);
    var r1 := Post(c, products, v, now1);
    PostAppends(c, products, v, now1);
    EmptyColourInserts(r1.0, products, v, now2);
    var r2 := Post(r1.0, products, v, now2);
    PostAppends(r1.0, products, v, now2);
    var lines := Lines(r2.0, products, s);
    var n := |Lines(c, products, s)|;
    assert lines == Lines(c, products, s) + [CartLine(r1.1, p)] + [CartLine(r2.1, p)];
    assert lines[n].item == r1.1 && lines[n + 1].item == r2.1;
    assert Choices(lines)[n] == Choices(lines)[n + 1];
  }

  // ---------------------------------------------------------------------------
  // PATCH and DELETE /api/cart/:id

  /** `PATCH /api/cart/:id` on the cart `c`: 404 and no change for an unknown (or NaN) id;
      otherwise the supplied fields are written, and the line is kept whatever its new
      quantity, 0 included. */
  function Patch(c: Cart, id: Option<int>, u: UpdateCartItem): (r: (Cart, Reply<CartItem>))
    requires CartValid(c)
    ensures CartValid(r.0)
    ensures r.1.NotFound? <==> id.None? || id.value !in c.rows
    ensures r.1.NotFound? ==> r.0 == c
    ensures r.1.Ok? ==> && r.1.body == ApplyUpdate(c.rows[id.value], u)
                        && r.0.rows == c.rows[id.value := r.1.body]
                        && r.0.order == c.order && r.0.next == c.next
    ensures r.1.Ok? && u.quantity.Some? ==> r.1.body.quantity == u.quantity.value
  {
    if id.None? then (c, NotFound)
    else
      match UpdateItem(c, id.value, u)
      case (c2, Some(item)) => (c2, Ok(item))
      case (c2, None) => (c2, NotFound)
  }

  /** A quantity of 0 sent to a known line keeps the line, with quantity 0. */
  lemma PatchZeroKeepsLine(c: Cart, id: int, u: UpdateCartItem)
    requires CartValid(c) && id in c.rows && u.quantity == Some(0)
    ensures Patch(c, Some(id), u).0.rows.Keys == c.rows.Keys
    ensures Patch(c, Some(id), u).0.rows[id].quantity == 0
  {
  }

  method PatchCartRoute(st: MemStorage, id: Option<int>, u: UpdateCartItem) returns (reply: Reply<CartItem>)
    requires st.Valid()
    modifies st
    ensures st.Valid()
    ensures (st.CartTable(), reply) == Patch(old(st.CartTable()), id, u)
    ensures st.CatalogTable() == old(st.CatalogTable())
  {
    if id.None? {
      return NotFound;
    }
    var updatedItem := st.UpdateCartItem(id.value, u);
    if updatedItem.None? {
      return NotFound;
    }
    reply := Ok(updatedItem.value);
  }

  const RemovedMessage: string := "Item removed from cart"

  /** `DELETE /api/cart/:id` on the cart `c`: 404 and no change for an unknown (or NaN)
      id; otherwise exactly that line goes. */
  function Remove(c: Cart, id: Option<int>): (r: (Cart, Reply<string>))
    requires CartValid(c)
    ensures CartValid(r.0)
    ensures r.1.NotFound? <==> id.None? || id.value !in c.rows
    ensures r.1.NotFound? ==> r.0 == c
    ensures r.1.Ok? ==> && r.1.body == RemovedMessage
                        && r.0.rows.Keys == c.rows.Keys - {id.value}
                        && (forall k :: k in r.0.rows ==> r.0.rows[k] == c.rows[k])
                        && r.0.next == c.next
  {
    if id.None? then (c, NotFound)
    else
      var (c2, removed) := RemoveItem(c, id.value);
      if removed then (c2, Ok(RemovedMessage))
      else
        WithoutAbsent(c, {id.value});
        (c2, NotFound)
  }

  method DeleteCartItemRoute(st: MemStorage, id: Option<int>) returns (reply: Reply<string>)
    requires st.Valid()
    modifies st
    ensures st.Valid()
    ensures (st.CartTable(), reply) == Remove(old(st.CartTable()), id)
    ensures st.CatalogTable() == old(st.CatalogTable())
  {
    if id.None? {
      return NotFound;
    }
    var success := st.RemoveFromCart(id.value);
    if !success {
      WithoutAbsent(old(st.CartTable()), {id.value});
      return NotFound;
    }
    reply := Ok(RemovedMessage);
  }
}
