/** The order summary in the cart panel (client/src/components/cart-sidebar.tsx): shipping,
    18% GST rounded to whole units, the final total, and the free-shipping hint. Amounts are
    whole currency units. */
module CartSummary {
  import opened Schema
  import opened CartHook

  const FreeShippingOver: int := 1500
  const ShippingFee: int := 99

  /** Free strictly above 1500; 1500 itself pays the fee. */
  function Shipping(subtotal: int): (r: int)
    ensures r == 0 <==> subtotal > FreeShippingOver
    ensures r == 0 || r == ShippingFee
  {
    if subtotal > FreeShippingOver then 0 else ShippingFee
  }

  /** `Math.round(subtotal * 0.18)`: the nearest whole number to 18%, halves rounding up. */
  function Tax(subtotal: int): (r: int)
    ensures 100 * r - 50 <= 18 * subtotal < 100 * r + 50
  {
    (18 * subtotal + 50) / 100
  }

  /** The half-up rounding is the only whole number within half a unit below or at 18%. */
  lemma TaxUnique(subtotal: int, t: int)
    requires 100 * t - 50 <= 18 * subtotal < 100 * t + 50
    ensures t == Tax(subtotal)
  {
  }

  /** `subtotal + shipping + tax`. */
  function FinalTotal(subtotal: int): (r: int)
    ensures subtotal >= 0 ==> r >= subtotal
  {
    subtotal + Shipping(subtotal) + Tax(subtotal)
  }

  /** `shipping > 0 && (1500 - subtotal)`: the amount still missing for free shipping.
      An empty cart shows its own empty view and no hint; otherwise the hint shows
      exactly while shipping is charged, and the amount is then never negative. Adding
      exactly that amount reaches 1500, which is not over 1500, so shipping is still
      charged. */
  function FreeShippingHint(items: seq<CartLine>): (r: Option<int>)
    ensures r.Some? <==> items != [] && Shipping(Total(items)) > 0
    ensures r.Some? ==> r.value >= 0 && Total(items) + r.value == FreeShippingOver
    ensures r.Some? ==> Shipping(Total(items) + r.value) == ShippingFee
  {
    if items == [] then None
    else
      var subtotal := Total(items);
      if Shipping(subtotal) > 0 then Some(FreeShippingOver - subtotal) else None
  }

  /** The summary for a cart, with `total` as the subtotal. */
  datatype Summary = Summary(subtotal: int, shipping: int, tax: int, finalTotal: int)

  /** The summary block of the panel, absent for an empty cart, which shows its own empty
      view instead. The subtotal is the hook's total; shipping is free exactly above 1500
      and 99 otherwise; the tax is 18% of the subtotal to the nearest unit; the final total
      adds the three and is never below a non-negative subtotal. With quantities of at
      least one, the subtotal is not negative. */
  function Summarize(items: seq<CartLine>): (r: Option<Summary>)
    ensures r.Some? <==> items != []
    ensures r.Some? ==> r.value.subtotal == Total(items)
    ensures r.Some? ==> (r.value.shipping == 0 <==> r.value.subtotal > FreeShippingOver)
    ensures r.Some? ==> r.value.shipping == 0 || r.value.shipping == ShippingFee
    ensures r.Some? ==> 100 * r.value.tax - 50 <= 18 * r.value.subtotal < 100 * r.value.tax + 50
    ensures r.Some? ==> r.value.finalTotal == r.value.subtotal + r.value.shipping + r.value.tax
    ensures r.Some? && r.value.subtotal >= 0 ==> r.value.finalTotal >= r.value.subtotal
    ensures r.Some? && (forall i :: 0 <= i < |items| ==> items[i].item.quantity >= 1) ==> r.value.subtotal >= 0
  {
    if items == [] then None
    else
      var subtotal := Total(items);
      Some(Summary(subtotal, Shipping(subtotal), Tax(subtotal), FinalTotal(subtotal)))
  }

  /** Two units at 1000 ship free with 360 tax, 2360 in all; one unit at 500 pays 99
      shipping and 90 tax, 689 in all. An empty cart has no summary and no hint. */
  lemma WorkedExamples(a: CartLine, b: CartLine)
    requires a.product.price == 1000 && a.item.quantity == 2
    requires b.product.price == 500 && b.item.quantity == 1
    ensures Summarize([a]) == Some(Summary(2000, 0, 360, 2360))
    ensures Summarize([b]) == Some(Summary(500, 99, 90, 689))
    ensures Summarize([]) == None && FreeShippingHint([]) == None
  {
    FoldsSingle(a);
    FoldsSingle(b);
  }
}
