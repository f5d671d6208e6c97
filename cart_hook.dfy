/** The cart hook (client/src/hooks/use-cart.ts): the derived totals as left folds over
    the fetched lines, the requests `addToCart` and `updateQuantity` send, and the
    open/closed state of the cart panel. Which session the requests land in depends on
    a request helper that is not part of this model. */
module CartHook {
  import opened Schema
  import opened Seqs
  import opened OrderedMap
  import opened Storage
  import opened Routes

  /** `items.reduce((sum, item) => sum + price * item.quantity, 0)`; prices are never
      negative, so with no negative quantity the total is not negative either. */
  function Total(items: seq<CartLine>): (r: int)
    ensures (forall i :: 0 <= i < |items| ==> items[i].item.quantity >= 0) ==> r >= 0
  {
    if items == [] then 0
    else Total(items[..|items| - 1]) + items[|items| - 1].product.price * items[|items| - 1].item.quantity
  }

  /** `items.reduce((sum, item) => sum + item.quantity, 0)`: units, not lines, so with
      quantities of at least one it is at least the number of lines. */
  function ItemCount(items: seq<CartLine>): (r: int)
    ensures (forall i :: 0 <= i < |items| ==> items[i].item.quantity >= 0) ==> r >= 0
    ensures (forall i :: 0 <= i < |items| ==> items[i].item.quantity >= 1) ==> r >= |items|
  {
    if items == [] then 0 else ItemCount(items[..|items| - 1]) + items[|items| - 1].item.quantity
  }

  /** Both folds add up over concatenated line lists. */
  lemma {:induction false} FoldsConcat(a: seq<CartLine>, b: seq<CartLine>)
    ensures Total(a + b) == Total(a) + Total(b)
    ensures ItemCount(a + b) == ItemCount(a) + ItemCount(b)
  {
    if b == [] {
      assert a + b == a;
    } else {
      var n := |b| - 1;
      assert (a + b)[..|a + b| - 1] == a + b[..n];
      assert (a + b)[|a + b| - 1] == b[n];
      FoldsConcat(a, b[..n]);
    }
  }

  /** One line contributes its price times its quantity, and its quantity. */
  lemma FoldsSingle(l: CartLine)
    ensures Total([l]) == l.product.price * l.item.quantity
    ensures ItemCount([l]) == l.item.quantity
  {
    assert [l][..0] == [];
  }

  /** A request the hook sends for a line. */
  datatype Mutation = RemoveLine(itemId: int) | PatchQuantity(itemId: int, quantity: int)

  /** `updateQuantity`: a quantity of 0 or less removes the line; otherwise only the new
      quantity is sent. */
  function UpdateQuantity(itemId: int, quantity: int): (m: Mutation)
    ensures m.itemId == itemId
    ensures m.RemoveLine? <==> quantity <= 0
    ensures m.PatchQuantity? ==> m.quantity == quantity
  {
    if quantity <= 0 then RemoveLine(itemId) else PatchQuantity(itemId, quantity)
  }

  /** What the server does with a mutation on its cart. */
  function Apply(c: Cart, m: Mutation): (r: Cart)
    requires CartValid(c)
    ensures CartValid(r)
  {
    match m
    case RemoveLine(id) => Remove(c, Some(id)).0
    case PatchQuantity(id, q) => Patch(c, Some(id), UpdateCartItem(Absent, Some(q), Absent, Absent)).0
  }

  /** Through the hook, a quantity of 0 or less makes the line disappear, and a positive
      one is stored as is; the server alone never removes a line on a patch. */
  lemma UpdateQuantityEffect(c: Cart, id: int, q: int)
    requires CartValid(c) && id in c.rows
    ensures var r := Apply(c, UpdateQuantity(id, q));
            && (q <= 0 ==> r.rows.Keys == c.rows.Keys - {id})
            && (q > 0 ==> r.rows.Keys == c.rows.Keys && r.rows[id] == c.rows[id].(quantity := q))
  {
  }

  /** `addToCart(productId, color, size, quantity = 1)`: the body it posts. */
  function AddToCartBody(productId: int, color: string, size: string, quantity: Option<int>): (b: CartBody)
    ensures b.productId == Present(productId)
    ensures b.selectedColor == Present(color) && b.selectedSize == Present(size)
    ensures b.quantity == Some(if quantity.Some? then quantity.value else 1)
  {
    CartBody(Present(productId), Some(if quantity.Some? then quantity.value else 1), Present(color), Present(size))
  }

  /** Adds from the hook with a colour and a size keep the session's lines distinct by
      product, colour and size. */
  lemma HookAddsKeepDistinct(c: Cart, products: map<int, Product>, productId: int, color: string,
                             size: string, quantity: Option<int>, session: string, now: int)
    requires CartValid(c) && color != "" && size != ""
    requires Distinct(Choices(Lines(c, products, session)))
    ensures var v := WithSession(AddToCartBody(productId, color, size, quantity), session);
            Distinct(Choices(Lines(Post(c, products, v, now).0, products, session)))
  {
    var v := WithSession(AddToCartBody(productId, color, size, quantity), session);
    PostKeepsChoicesDistinct(c, products, v, now);
  }

  /** `isOpen` and `toggleCart`. */
  class CartPanel {
    var isOpen: bool

    constructor ()
      ensures !isOpen
    {
      isOpen := false;
    }

    /** `setIsOpen(!isOpen)`. */
    method ToggleCart()
      modifies this
      ensures isOpen == !old(isOpen)
    {
      isOpen := !isOpen;
    }
  }
}
