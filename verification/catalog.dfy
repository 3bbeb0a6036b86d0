/**
 * The catalogue records of the shop: products and categories with their
 * pricing helpers, the bounds the field validators enforce, and the slug
 * that `save` fills in. Prices are exact decimals; the database, the image
 * fields and the timestamps are not part of this model.
 */
module Catalog {
  import opened Wrappers
  import opened Decimals

  /** A product row. `discountPrice` is the nullable `discount_price`;
      `rating` is the `FloatField`, taken as an exact real. */
  datatype Product = Product(
    name: string,
    slug: string,
    price: Dec,
    discountPrice: Option<Dec>,
    stock: int,
    rating: real,
    isActive: bool)

  /** A category row. */
  datatype Category = Category(name: string, slug: string, isActive: bool)

  /** Python truthiness of a decimal: every value but zero is true. */
  predicate Truthy(d: Dec) {
    d.mant != 0
  }

  /** The discount that takes effect: present and non-zero. */
  predicate HasDiscount(p: Product) {
    p.discountPrice.Some? && Truthy(p.discountPrice.value)
  }

  /** `Product.get_price`: the discount price when it is truthy, the list
      price otherwise (a discount of zero is ignored). */
  function GetPrice(p: Product): (r: Dec)
    ensures HasDiscount(p) ==> r == p.discountPrice.value
    ensures !HasDiscount(p) ==> r == p.price
  {
    match p.discountPrice
    case Some(d) => if Truthy(d) then d else p.price
    case None => p.price
  }

  // ---------------------------------------------------------------------
  // Discount percentage
  // ---------------------------------------------------------------------

  /** `k` is the integer nearest to `n / d` for a divisor of either sign,
      a tie going to the even neighbour: Python's `round` of a quotient. */
  predicate RoundsQuotient(n: int, d: int, k: int)
    requires d != 0
  {
    && 2 * Abs(k * d - n) <= Abs(d)
    && (2 * Abs(k * d - n) == Abs(d) ==> k % 2 == 0)
  }

  /** `round(n / d)` for a non-zero divisor of either sign. */
  function RoundQuotient(n: int, d: int): (k: int)
    requires d != 0
    ensures RoundsQuotient(n, d, k)
  {
    if d > 0 then RoundHalfEven(n, d)
    else
      var k := RoundHalfEven(-n, -d);
      assert k * d - n == -(k * (-d) - (-n));
      k
  }

  /** The list and discount prices written at their common scale. */
  function CommonScale(p: Product): nat
    requires p.discountPrice.Some?
  {
    Max(p.price.scale, p.discountPrice.value.scale)
  }

  /** `Product.discount_percentage`: the saving as a whole percentage of
      the list price, rounded half to even; zero unless both the discount
      and the list price are truthy. */
  function DiscountPercentage(p: Product): (r: int)
    ensures !(HasDiscount(p) && Truthy(p.price)) ==> r == 0
    ensures HasDiscount(p) && Truthy(p.price) ==>
              var s := CommonScale(p);
              var list := At(p.price, s);
              RoundsQuotient((list - At(p.discountPrice.value, s)) * 100, list, r)
  {
    if HasDiscount(p) && Truthy(p.price) then
      var s := CommonScale(p);
      var list := At(p.price, s);
      assert list != 0 by {
        assert list == p.price.mant * Pow10(s - p.price.scale);
      }
      RoundQuotient((list - At(p.discountPrice.value, s)) * 100, list)
    else 0
  }

  lemma Mul100Bound(list: int, sale: int, k: int)
    requires 0 < sale <= list
    requires 2 * Abs(k * list - (list - sale) * 100) <= list
    ensures 0 <= k <= 100
  {
    if k < 0 {
      MulAtLeast(-k, list);
    }
    if k > 100 {
      MulAtLeast(k - 100, list);
      MulDistribSub(k, 100, list);
    }
  }

  /** A discount between zero (exclusive) and the list price is a saving
      between 0 and 100 percent. */
  lemma DiscountPercentageBounds(p: Product)
    requires p.discountPrice.Some?
    requires 0 < At(p.discountPrice.value, CommonScale(p)) <= At(p.price, CommonScale(p))
    ensures 0 <= DiscountPercentage(p) <= 100
  {
    var s := CommonScale(p);
    var d := p.discountPrice.value;
    assert At(d, s) == d.mant * Pow10(s - d.scale);
    assert At(p.price, s) == p.price.mant * Pow10(s - p.price.scale);
    assert d.mant != 0 && p.price.mant != 0;
    Mul100Bound(At(p.price, s), At(d, s), DiscountPercentage(p));
  }

  /** A product sold at its list price saves nothing. */
  lemma NoSavingAtListPrice(p: Product)
    requires p.discountPrice == Some(p.price) && Truthy(p.price)
    ensures DiscountPercentage(p) == 0
  {
    var k := DiscountPercentage(p);
    var list := At(p.price, CommonScale(p));
    assert 2 * Abs(k * list) <= Abs(list);
    if k != 0 {
      MulAtLeast(Abs(k), Abs(list));
    }
  }

  // ---------------------------------------------------------------------
  // Field validators
  // ---------------------------------------------------------------------

  /** The product fields a validator may reject. */
  datatype ProductField = PriceField | DiscountPriceField | StockField | RatingField

  /** The fields of `p` its validators reject: `MinValueValidator(0)` on
      both prices and the stock, and the bounds 0 to 5 on the rating. */
  function ProductErrors(p: Product): (errs: set<ProductField>)
    ensures PriceField in errs <==> p.price.mant < 0
    ensures DiscountPriceField in errs <==> p.discountPrice.Some? && p.discountPrice.value.mant < 0
    ensures StockField in errs <==> p.stock < 0
    ensures RatingField in errs <==> !(0.0 <= p.rating <= 5.0)
  {
    (if p.price.mant < 0 then {PriceField} else {})
    + (if p.discountPrice.Some? && p.discountPrice.value.mant < 0 then {DiscountPriceField} else {})
    + (if p.stock < 0 then {StockField} else {})
    + (if p.rating < 0.0 || p.rating > 5.0 then {RatingField} else {})
  }

  /** A product that passes its validators has a non-negative selling
      price that never exceeds the list price when the discount does not. */
  lemma ValidProductPrice(p: Product)
    requires ProductErrors(p) == {}
    ensures GetPrice(p).mant >= 0
    ensures p.discountPrice.Some? && At(p.discountPrice.value, CommonScale(p)) <= At(p.price, CommonScale(p)) ==>
              0 <= DiscountPercentage(p) <= 100
  {
    assert PriceField !in ProductErrors(p);
    assert DiscountPriceField !in ProductErrors(p);
    if p.discountPrice.Some? && At(p.discountPrice.value, CommonScale(p)) <= At(p.price, CommonScale(p)) {
      var s := CommonScale(p);
      var d := p.discountPrice.value;
      if d.mant == 0 {
        assert DiscountPercentage(p) == 0;
      } else {
        assert At(d, s) == d.mant * Pow10(s - d.scale);
        MulAtLeast(d.mant, Pow10(s - d.scale));
        DiscountPercentageBounds(p);
      }
    }
  }

  /** `OrderItem.quantity` must be at least 1. */
  predicate ValidQuantity(quantity: int) {
    quantity >= 1
  }

  /** `Review.rating` must lie between 1 and 5. */
  predicate ValidReviewRating(rating: int) {
    1 <= rating <= 5
  }

  // ---------------------------------------------------------------------
  // Saving
  // ---------------------------------------------------------------------

  /** The slug `save` stores: the given one, or `slugify(name)` when it is
      empty. `slugify` is a parameter. */
  function SlugOnSave(slug: string, name: string, slugify: string -> string): (r: string)
    ensures slug != "" ==> r == slug
    ensures slug == "" ==> r == slugify(name)
  {
    if slug == "" then slugify(name) else slug
  }

  /** `Product.save`: only the slug may change. */
  function SaveProduct(p: Product, slugify: string -> string): (r: Product)
    ensures r == p.(slug := r.slug)
    ensures r.slug == SlugOnSave(p.slug, p.name, slugify)
  {
    p.(slug := SlugOnSave(p.slug, p.name, slugify))
  }

  /** `Category.save`: only the slug may change. */
  function SaveCategory(c: Category, slugify: string -> string): (r: Category)
    ensures r == c.(slug := r.slug)
    ensures r.slug == SlugOnSave(c.slug, c.name, slugify)
  {
    c.(slug := SlugOnSave(c.slug, c.name, slugify))
  }

  /** Saving twice stores what saving once does: a slug, once set, is kept
      even when the name changes afterwards. */
  lemma SaveKeepsSlug(p: Product, newName: string, slugify: string -> string)
    ensures SaveProduct(SaveProduct(p, slugify), slugify) == SaveProduct(p, slugify)
    ensures var saved := SaveProduct(p, slugify);
            saved.slug != "" ==> SaveProduct(saved.(name := newName), slugify).slug == saved.slug
  {
  }
}
