/**
 * The session cart of `core/views.py`: the dict `str(product_id) -> quantity`
 * that `add_to_cart_ajax` merges into, the counts the views report, and the
 * subtotal `cart_view`, `checkout_view` and `process_payment` compute over
 * it. The database is the partial map `Catalog` from product ids to rows.
 */
module Cart {
  import opened Wrappers
  import opened Decimals
  import Catalog

  type ProductId = nat

  /** The products table: a product id that is not a key does not exist. */
  type Catalogue = map<ProductId, Catalog.Product>

  /** One cart entry. */
  datatype Line = Line(id: ProductId, quantity: int)

  /** The cart, in the dict's insertion order. */
  type Cart = seq<Line>

  /** A dict has each key once. */
  predicate DistinctIds(c: Cart) {
    forall i, j :: 0 <= i < j < |c| ==> c[i].id != c[j].id
  }

  /** `cart.get(id)`. */
  function QuantityOf(c: Cart, id: ProductId): Option<int> {
    if c == [] then None
    else if c[0].id == id then Some(c[0].quantity)
    else QuantityOf(c[1..], id)
  }

  /** The merge of `add_to_cart_ajax`: an id already in the cart has
      `quantity` added to its entry, a new id is appended with `quantity`,
      and no other entry changes. */
  function AddLine(c: Cart, id: ProductId, quantity: int): (r: Cart)
    ensures QuantityOf(c, id).Some? ==> |r| == |c| && QuantityOf(r, id) == Some(QuantityOf(c, id).value + quantity)
    ensures QuantityOf(c, id).None? ==> r == c + [Line(id, quantity)] && QuantityOf(r, id) == Some(quantity)
    ensures forall other :: other != id ==> QuantityOf(r, other) == QuantityOf(c, other)
    ensures forall i :: 0 <= i < |c| ==> r[i].id == c[i].id
    ensures DistinctIds(c) ==> DistinctIds(r)
    decreases |c|
  {
    if c == [] then [Line(id, quantity)]
    else if c[0].id == id then [Line(id, c[0].quantity + quantity)] + c[1..]
    else
      var rest := AddLine(c[1..], id, quantity);
      assert QuantityOf(c, id) == QuantityOf(c[1..], id);
      assert forall i :: 0 < i < |c| ==> c[i] == c[1..][i - 1];
      var r := [c[0]] + rest;
      assert forall i :: 0 < i < |r| ==> r[i] == rest[i - 1];
      assert QuantityOf(c, id).None? ==> r == c + [Line(id, quantity)] by {
        if QuantityOf(c, id).None? {
          assert rest == c[1..] + [Line(id, quantity)];
          assert [c[0]] + (c[1..] + [Line(id, quantity)]) == c + [Line(id, quantity)];
        }
      }
      assert DistinctIds(c) ==> DistinctIds(r) by {
        if DistinctIds(c) {
          assert DistinctIds(c[1..]);
          forall j | 0 < j < |r| ensures r[0].id != r[j].id {
            if j - 1 < |c| - 1 {
              assert rest[j - 1].id == c[1..][j - 1].id == c[j].id;
            } else {
              // the appended line carries `id`, which `c[0]` does not
              assert QuantityOf(c, id).None?;
              assert rest == c[1..] + [Line(id, quantity)];
              assert rest[j - 1].id == id;
            }
          }
        }
      }
      r
  }

  /** `sum(cart.values())`: the `cart_count` of `add_to_cart_ajax`. */
  function TotalQuantity(c: Cart): int {
    if c == [] then 0 else c[0].quantity + TotalQuantity(c[1..])
  }

  /** `len(cart)`: the `cart_count` of `cart_view`. */
  function LineCount(c: Cart): nat {
    |c|
  }

  /** Merging adds exactly the requested quantity to the cart's total. */
  lemma {:induction false} AddLineTotal(c: Cart, id: ProductId, quantity: int)
    ensures TotalQuantity(AddLine(c, id, quantity)) == TotalQuantity(c) + quantity
    decreases |c|
  {
    if c == [] {
      assert TotalQuantity([Line(id, quantity)]) == quantity + TotalQuantity([]);
    } else if c[0].id == id {
      var r := AddLine(c, id, quantity);
      assert r[1..] == c[1..];
    } else {
      AddLineTotal(c[1..], id, quantity);
      var r := AddLine(c, id, quantity);
      assert r[1..] == AddLine(c[1..], id, quantity);
    }
  }

  /** The two views' counts: with every quantity at least 1, the number of
      lines never exceeds the number of units, and they agree exactly when
      every line holds a single unit. */
  lemma {:induction false} LinesAtMostUnits(c: Cart)
    requires forall i :: 0 <= i < |c| ==> c[i].quantity >= 1
    ensures LineCount(c) <= TotalQuantity(c)
    ensures LineCount(c) == TotalQuantity(c) <==> forall i :: 0 <= i < |c| ==> c[i].quantity == 1
  {
    if c != [] {
      assert forall i :: 0 < i < |c| ==> c[i] == c[1..][i - 1];
      LinesAtMostUnits(c[1..]);
      if forall i :: 0 <= i < |c[1..]| ==> c[1..][i].quantity == 1 {
        assert forall i :: 0 < i < |c| ==> c[i].quantity == 1;
      }
    }
  }

  // ---------------------------------------------------------------------
  // The add-to-cart endpoint
  // ---------------------------------------------------------------------

  /** The JSON body of the request: `product_id` and `quantity`, each of
      which may be missing. */
  datatype AddRequest = AddRequest(productId: Option<ProductId>, quantity: Option<int>)

  /** The JSON responses of `add_to_cart_ajax`. */
  datatype AddReply =
    | Added(cartCount: int, productName: string)  // 200
    | ProductNotFound                             // 404
    | InvalidRequest                              // 400

  /** The reply together with the session cart afterwards. */
  datatype AddOutcome = AddOutcome(reply: AddReply, cart: Cart)

  /** The HTTP status each reply is sent with. */
  function Status(reply: AddReply): int {
    match reply
    case Added(_, _) => 200
    case ProductNotFound => 404
    case InvalidRequest => 400
  }

  /** The product `Product.objects.get(id=…, is_active=True)` finds. */
  predicate ActiveProduct(db: Catalogue, id: Option<ProductId>) {
    id.Some? && id.value in db && db[id.value].isActive
  }

  /** `add_to_cart_ajax(request)`: only a POST naming an active product
      changes the cart, merging `quantity` (1 when absent) into it. */
  function AddToCartAjax(isPost: bool, body: AddRequest, db: Catalogue, cart: Cart): (r: AddOutcome)
    ensures !isPost ==> r == AddOutcome(InvalidRequest, cart)
    ensures isPost && !ActiveProduct(db, body.productId) ==> r == AddOutcome(ProductNotFound, cart)
    ensures r.reply.Added? <==> isPost && ActiveProduct(db, body.productId)
    // an error status never touches the session cart
    ensures Status(r.reply) != 200 ==> r.cart == cart
    ensures r.reply.Added? ==>
              && r.cart == AddLine(cart, body.productId.value, body.quantity.GetOr(1))
              && r.reply.cartCount == TotalQuantity(cart) + body.quantity.GetOr(1)
              && r.reply.productName == db[body.productId.value].name
  {
    if !isPost then AddOutcome(InvalidRequest, cart)
    else if !ActiveProduct(db, body.productId) then AddOutcome(ProductNotFound, cart)
    else
      var id := body.productId.value;
      var quantity := body.quantity.GetOr(1);
      var updated := AddLine(cart, id, quantity);
      AddLineTotal(cart, id, quantity);
      AddOutcome(Added(TotalQuantity(updated), db[id].name), updated)
  }

  // ---------------------------------------------------------------------
  // Subtotal
  // ---------------------------------------------------------------------

  /** `product.price * quantity` for a line whose product exists. */
  function LineTotal(db: Catalogue, line: Line): Dec
    requires line.id in db
  {
    Mul(db[line.id].price, FromInt(line.quantity))
  }

  /** The loop of `cart_view`: starting from zero, each line whose product
      exists adds `price * quantity` (the list price, not `get_price`);
      missing products are skipped. */
  function Subtotal(db: Catalogue, c: Cart): Dec
    decreases |c|
  {
    if c == [] then Dec(0, 0)
    else
      var before := Subtotal(db, c[..|c| - 1]);
      var last := c[|c| - 1];
      if last.id in db then Add(before, LineTotal(db, last)) else before
  }

  /** Every product price in the catalogue has at most `s` places. */
  predicate PricesWithin(db: Catalogue, s: nat) {
    forall id :: id in db ==> db[id].price.scale <= s
  }

  /** The same sum written directly in units of `10^-s`: a reference
      definition, folding from the front. */
  function SubtotalAt(db: Catalogue, c: Cart, s: nat): int
    requires PricesWithin(db, s)
    decreases |c|
  {
    if c == [] then 0
    else
      var first := if c[0].id in db then At(db[c[0].id].price, s) * c[0].quantity else 0;
      first + SubtotalAt(db, c[1..], s)
  }

  lemma {:induction false} SubtotalAtAppend(db: Catalogue, c: Cart, line: Line, s: nat)
    requires PricesWithin(db, s)
    ensures SubtotalAt(db, c + [line], s)
         == SubtotalAt(db, c, s) + (if line.id in db then At(db[line.id].price, s) * line.quantity else 0)
    decreases |c|
  {
    if c == [] {
      assert [line][1..] == [];
    } else {
      assert (c + [line])[1..] == c[1..] + [line];
      SubtotalAtAppend(db, c[1..], line, s);
    }
  }

  /** A line's total has the places of its price, and counts `quantity`
      times the price. */
  lemma LineExact(db: Catalogue, line: Line, s: nat)
    requires line.id in db && db[line.id].price.scale <= s
    ensures LineTotal(db, line).scale <= s
    ensures At(LineTotal(db, line), s) == At(db[line.id].price, s) * line.quantity
  {
    var p := db[line.id].price;
    MulRight(p.mant, line.quantity, Pow10(s - p.scale));
  }

  lemma MulRight(a: int, b: int, c: int)
    ensures (a * b) * c == (a * c) * b
  {
  }

  /** With every price at no more than `s` places, the subtotal has at most
      `s` places and is exactly the sum of `price * quantity` over the lines
      whose product exists. */
  lemma {:induction false} SubtotalExact(db: Catalogue, c: Cart, s: nat)
    requires PricesWithin(db, s)
    ensures Subtotal(db, c).scale <= s
    ensures At(Subtotal(db, c), s) == SubtotalAt(db, c, s)
    decreases |c|
  {
    if c != [] {
      var init := c[..|c| - 1];
      var last := c[|c| - 1];
      assert c == init + [last];
      SubtotalExact(db, init, s);
      SubtotalAtAppend(db, init, last, s);
      if last.id in db {
        LineExact(db, last, s);
        AddExact(Subtotal(db, init), LineTotal(db, last), s);
      }
    }
  }

  /** A line for a product that does not exist leaves the subtotal as it was,
      wherever it sits in the cart. */
  lemma {:induction false} SubtotalSkipsMissing(db: Catalogue, front: Cart, back: Cart, missing: Line)
    requires missing.id !in db
    ensures Subtotal(db, front + [missing] + back) == Subtotal(db, front + back)
    decreases |back|
  {
    var c := front + [missing] + back;
    if back == [] {
      assert c[..|c| - 1] == front;
      assert front + back == front;
    } else {
      var init := back[..|back| - 1];
      var last := back[|back| - 1];
      SubtotalSkipsMissing(db, front, init, missing);
      assert c[..|c| - 1] == front + [missing] + init;
      assert c[|c| - 1] == last;
      var d := front + back;
      assert d[..|d| - 1] == front + init;
      assert d[|d| - 1] == last;
    }
  }

  lemma {:induction false} SubtotalAtConcat(db: Catalogue, a: Cart, b: Cart, s: nat)
    requires PricesWithin(db, s)
    ensures SubtotalAt(db, a + b, s) == SubtotalAt(db, a, s) + SubtotalAt(db, b, s)
    decreases |a|
  {
    if a == [] {
      assert a + b == b;
    } else {
      assert (a + b)[1..] == a[1..] + b;
      SubtotalAtConcat(db, a[1..], b, s);
    }
  }

  /** The subtotal of a cart split in two is the sum of the two parts'
      subtotals, counted in units of `10^-s`. */
  lemma SubtotalSplits(db: Catalogue, a: Cart, b: Cart, s: nat)
    requires PricesWithin(db, s)
    ensures Subtotal(db, a).scale <= s && Subtotal(db, b).scale <= s && Subtotal(db, a + b).scale <= s
    ensures At(Subtotal(db, a + b), s) == At(Subtotal(db, a), s) + At(Subtotal(db, b), s)
  {
    SubtotalExact(db, a + b, s);
    SubtotalExact(db, a, s);
    SubtotalExact(db, b, s);
    SubtotalAtConcat(db, a, b, s);
  }

  /** With non-negative prices and quantities the subtotal is non-negative. */
  lemma {:induction false} SubtotalNonNegative(db: Catalogue, c: Cart)
    requires forall id :: id in db ==> db[id].price.mant >= 0
    requires forall i :: 0 <= i < |c| ==> c[i].quantity >= 0
    ensures Subtotal(db, c).mant >= 0
    decreases |c|
  {
    if c != [] {
      var init := c[..|c| - 1];
      var last := c[|c| - 1];
      SubtotalNonNegative(db, init);
      if last.id in db {
        var t := LineTotal(db, last);
        assert t.mant >= 0;
        var m := Max(Subtotal(db, init).scale, t.scale);
        assert At(Subtotal(db, init), m) >= 0;
        assert At(t, m) >= 0;
      }
    }
  }
}
