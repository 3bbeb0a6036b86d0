/**
 * The money side of the cart pages in `core/views.py`: the cart page's
 * figures, the shipping table, the 20 % tax and the final total that
 * `checkout_view` shows and `process_payment` charges, and what each does
 * with an empty cart.
 */
module Checkout {
  import opened Wrappers
  import opened Decimals
  import opened Cart

  /** The figures of `cart.html`. */
  datatype CartPage = CartPage(totalPrice: Dec, cartCount: nat)

  /** `cart_view(request)`: the subtotal over existing products, and the
      number of distinct lines (not of units) as the count. */
  function CartView(db: Catalogue, cart: Cart): (page: CartPage)
    ensures page.cartCount == |cart|
    ensures page.totalPrice == Subtotal(db, cart)
    ensures PricesWithin(db, 2) ==> page.totalPrice.scale <= 2 && At(page.totalPrice, 2) == SubtotalAt(db, cart, 2)
  {
    assert PricesWithin(db, 2) ==> Subtotal(db, cart).scale <= 2 && At(Subtotal(db, cart), 2) == SubtotalAt(db, cart, 2) by {
      if PricesWithin(db, 2) { SubtotalExact(db, cart, 2); }
    }
    CartPage(Subtotal(db, cart), |cart|)
  }

  // ---------------------------------------------------------------------
  // Shipping and tax
  // ---------------------------------------------------------------------

  const Express: Dec := Dec(999, 2)
  const Overnight: Dec := Dec(1999, 2)

  /** `shipping_costs.get(choice, Decimal('0'))`: standard shipping and any
      method outside the table are free. */
  function ShippingCost(choice: string): (r: Dec)
    ensures choice == "express" ==> r == Express
    ensures choice == "overnight" ==> r == Overnight
    ensures choice != "express" && choice != "overnight" ==> r.mant == 0
  {
    if choice == "standard" then Dec(0, 0)
    else if choice == "express" then Express
    else if choice == "overnight" then Overnight
    else Dec(0, 0)
  }

  /** The shipping method a request selects: `'standard'` when the field is absent. */
  function SelectedMethod(field: Option<string>): string {
    field.GetOr("standard")
  }

  /** Shipping never costs more than the overnight rate, and is charged at
      exactly two places. */
  lemma ShippingCostBounded(choice: string)
    ensures 0 <= At(ShippingCost(choice), 2) <= 1999
    ensures ShippingCost(choice).mant != 0 <==> choice == "express" || choice == "overnight"
  {
  }

  /** `(subtotal * Decimal('0.20')).quantize(Decimal('0.01'))`. The tax, in
      cents, is the subtotal's `20 * mant / 10^scale` rounded half to even. */
  function Tax(subtotal: Dec): (r: Dec)
    ensures r.scale == 2
    ensures IsHalfEven(subtotal.mant * 20, Pow10(subtotal.scale), r.mant)
  {
    var r := Quantize2(Mul(subtotal, Dec(20, 2)));
    Pow10Add(subtotal.scale, 2);
    HalfEvenScale(subtotal.mant * 20, Pow10(subtotal.scale), r.mant, 100);
    assert (subtotal.mant * 20) * 100 == (subtotal.mant * 20) * 100;
    r
  }

  /** The totals both views compute. */
  datatype Totals = Totals(subtotal: Dec, shipping: Dec, tax: Dec, finalTotal: Dec)

  /** `(subtotal + shipping + tax).quantize(Decimal('0.01'))`. */
  function FinalTotal(subtotal: Dec, shipping: Dec, tax: Dec): (r: Dec)
    ensures r.scale == 2
    ensures subtotal.scale <= 2 && shipping.scale <= 2 && tax.scale <= 2 ==>
              r.mant == At(subtotal, 2) + At(shipping, 2) + At(tax, 2)
  {
    var sum := Add(Add(subtotal, shipping), tax);
    assert subtotal.scale <= 2 && shipping.scale <= 2 && tax.scale <= 2 ==>
             Quantize2(sum).mant == At(subtotal, 2) + At(shipping, 2) + At(tax, 2) by {
      if subtotal.scale <= 2 && shipping.scale <= 2 && tax.scale <= 2 {
        AddExact(subtotal, shipping, 2);
        AddExact(Add(subtotal, shipping), tax, 2);
        assert Quantize2(sum).mant == At(sum, 2);
      }
    }
    Quantize2(sum)
  }

  /** The shipping, tax and final total for `cart` and `choice`. */
  function ComputeTotals(db: Catalogue, cart: Cart, choice: string): (t: Totals)
    ensures t.subtotal == Subtotal(db, cart)
    ensures t.shipping == ShippingCost(choice)
    ensures t.tax == Tax(t.subtotal)
    ensures t.finalTotal == FinalTotal(t.subtotal, t.shipping, t.tax)
  {
    var subtotal := Subtotal(db, cart);
    var shipping := ShippingCost(choice);
    var tax := Tax(subtotal);
    Totals(subtotal, shipping, tax, FinalTotal(subtotal, shipping, tax))
  }

  /** With prices at two places (the `DecimalField`s of the catalogue) no
      rounding happens in the final total: it is, to the cent, the subtotal
      plus the shipping plus the rounded tax. */
  lemma FinalTotalInCents(db: Catalogue, cart: Cart, choice: string)
    requires PricesWithin(db, 2)
    ensures var t := ComputeTotals(db, cart, choice);
            && t.finalTotal.scale == 2
            && t.finalTotal.mant == SubtotalAt(db, cart, 2) + At(t.shipping, 2) + t.tax.mant
  {
    SubtotalExact(db, cart, 2);
    var t := ComputeTotals(db, cart, choice);
    assert At(t.tax, 2) == t.tax.mant;
  }

  /** A subtotal of zero, as for a cart of missing products, costs only the
      shipping. */
  lemma EmptySubtotalCostsShipping(db: Catalogue, cart: Cart, choice: string)
    requires PricesWithin(db, 2)
    requires Subtotal(db, cart).mant == 0
    ensures ComputeTotals(db, cart, choice).tax == Dec(0, 2)
    ensures ComputeTotals(db, cart, choice).finalTotal == Dec(At(ShippingCost(choice), 2), 2)
  {
    var sub := Subtotal(db, cart);
    var ship := ShippingCost(choice);
    SubtotalExact(db, cart, 2);
    var tax := Tax(sub);
    HalfEvenUnique(0, Pow10(sub.scale), tax.mant, 0);
    assert tax == Dec(0, 2);
    assert At(sub, 2) == 0 by {
      assert At(sub, 2) == 0 * Pow10(2 - sub.scale);
    }
    assert ship.scale <= 2;
    var total := FinalTotal(sub, ship, tax);
    assert total.mant == At(ship, 2);
  }

  // ---------------------------------------------------------------------
  // The checkout page
  // ---------------------------------------------------------------------

  datatype CheckoutPage =
    | RedirectToCart
    | PaymentPage(totals: Totals)

  /** `checkout_view(request)`: an empty cart sends the customer back to
      the cart; otherwise the page shows the totals for the posted
      `shipping` field. */
  function CheckoutView(db: Catalogue, cart: Cart, shippingField: Option<string>): (page: CheckoutPage)
    ensures page.RedirectToCart? <==> cart == []
    ensures page.PaymentPage? ==> page.totals == ComputeTotals(db, cart, SelectedMethod(shippingField))
  {
    if cart == [] then RedirectToCart
    else PaymentPage(ComputeTotals(db, cart, SelectedMethod(shippingField)))
  }

  // ---------------------------------------------------------------------
  // Payment
  // ---------------------------------------------------------------------

  /** The parsed JSON body of a payment request; only the shipping choice
      affects the amounts. */
  datatype PaymentData = PaymentData(shippingMethod: Option<string>)

  /** Why a payment is refused; each is answered with status 400. */
  datatype PaymentError =
    | NotPost           // 'Requête invalide'
    | MalformedBody     // the message of the JSON decoding error
    | EmptyCart         // 'Panier vide'
    | OrderNotCreated   // the message of the error `Order.objects.create` raises

  datatype PaymentReply = Paid(total: Dec) | Refused(error: PaymentError)

  /** The reply together with the session cart afterwards. */
  datatype PaymentOutcome = PaymentOutcome(reply: PaymentReply, cart: Cart)

  /** `process_payment(request)` as written: for a signed-in customer it
      calls `Order.objects.create(..., shipping_method=...)`, but `Order`
      has no `shipping_method` field, so the call raises, the handler turns
      that into a refusal, and the cart is kept. `body` is `None` when the
      request body is not valid JSON. */
  function ProcessPaymentAsWritten(isPost: bool, body: Option<PaymentData>, db: Catalogue, cart: Cart, signedIn: bool): (r: PaymentOutcome)
    ensures r.reply.Paid? <==> isPost && body.Some? && cart != [] && !signedIn
    ensures r.reply.Refused? ==> r.cart == cart
  {
    if !isPost then PaymentOutcome(Refused(NotPost), cart)
    else if body.None? then PaymentOutcome(Refused(MalformedBody), cart)
    else if cart == [] then PaymentOutcome(Refused(EmptyCart), cart)
    else
      var totals := ComputeTotals(db, cart, SelectedMethod(body.value.shippingMethod));
      if signedIn then PaymentOutcome(Refused(OrderNotCreated), cart)
      else PaymentOutcome(Paid(totals.finalTotal), [])
  }

  /** A signed-in customer with a non-empty cart is never charged. */
  lemma SignedInPaymentAlwaysRefused(body: PaymentData, db: Catalogue, cart: Cart)
    requires cart != []
    ensures ProcessPaymentAsWritten(true, Some(body), db, cart, true) == PaymentOutcome(Refused(OrderNotCreated), cart)
  {
  }

  /** `process_payment(request)` as intended: the order is recorded for a
      signed-in customer (the record itself is not modelled) and the payment
      proceeds exactly as for a guest. */
  function ProcessPayment(isPost: bool, body: Option<PaymentData>, db: Catalogue, cart: Cart, signedIn: bool): (r: PaymentOutcome)
    ensures !isPost ==> r == PaymentOutcome(Refused(NotPost), cart)
    ensures isPost && body.None? ==> r == PaymentOutcome(Refused(MalformedBody), cart)
    ensures isPost && body.Some? && cart == [] ==> r == PaymentOutcome(Refused(EmptyCart), cart)
    ensures r.reply.Paid? <==> isPost && body.Some? && cart != []
    ensures r.reply.Paid? ==> r.cart == []
    ensures r.reply.Refused? ==> r.cart == cart
    ensures !signedIn ==> r == ProcessPaymentAsWritten(isPost, body, db, cart, signedIn)
  {
    if !isPost then PaymentOutcome(Refused(NotPost), cart)
    else if body.None? then PaymentOutcome(Refused(MalformedBody), cart)
    else if cart == [] then PaymentOutcome(Refused(EmptyCart), cart)
    else
      var totals := ComputeTotals(db, cart, SelectedMethod(body.value.shippingMethod));
      PaymentOutcome(Paid(totals.finalTotal), [])
  }

  /** The amount charged is the final total the checkout page showed for
      the same cart and shipping choice, whoever pays. */
  lemma PaymentChargesCheckoutTotal(db: Catalogue, cart: Cart, choice: Option<string>, signedIn: bool)
    requires cart != []
    ensures var page := CheckoutView(db, cart, choice);
            var paid := ProcessPayment(true, Some(PaymentData(choice)), db, cart, signedIn);
            && page.PaymentPage?
            && paid.reply == Paid(page.totals.finalTotal)
  {
  }

  /** After a payment the cart is empty, so a second payment is refused and
      the checkout page redirects. */
  lemma NoSecondPayment(db: Catalogue, cart: Cart, body: PaymentData, signedIn: bool)
    requires cart != []
    ensures var after := ProcessPayment(true, Some(body), db, cart, signedIn).cart;
            && ProcessPayment(true, Some(body), db, after, signedIn).reply == Refused(EmptyCart)
            && CheckoutView(db, after, body.shippingMethod) == RedirectToCart
  {
  }

  // ---------------------------------------------------------------------
  // Worked examples
  // ---------------------------------------------------------------------

  /** 49.99 with express shipping: tax 10.00 (9.998 rounded), total 69.98. */
  lemma ExpressExample()
    ensures Tax(Dec(4999, 2)) == Dec(1000, 2)
    ensures FinalTotal(Dec(4999, 2), ShippingCost("express"), Dec(1000, 2)) == Dec(6998, 2)
  {
    assert RoundHalfEven(99980, 100) == 1000;
  }

  /** With a subtotal at no more than two places the tax is never a tie
      between two cents, so half-even and half-up rounding agree on it. */
  lemma TaxNeverTies(subtotal: Dec)
    requires subtotal.scale <= 2
    ensures 2 * Abs(Tax(subtotal).mant * Pow10(subtotal.scale) - subtotal.mant * 20) < Pow10(subtotal.scale)
  {
    var k := Tax(subtotal).mant;
    var m := subtotal.mant;
    if subtotal.scale == 0 {
      assert Pow10(0) == 1;
    } else if subtotal.scale == 1 {
      assert Pow10(1) == 10;
      assert k * 10 - m * 20 == 10 * (k - 2 * m);
    } else {
      assert Pow10(2) == 100;
      assert k * 100 - m * 20 == 20 * (5 * k - m);
    }
  }
}
