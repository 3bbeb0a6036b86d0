# Coffee-shop storefront: prices, currencies, cart and checkout in Dafny

This project models the price arithmetic of a Django coffee-shop storefront. It covers:

- **The currency service** (`CurrencyConverter`): a registry of three currencies (XOF is the default, then USD and EUR). The rate lookup goes through a one-hour cache, asks a live provider on a miss, and returns a static fallback table when the provider fails. On top of that sit `convert`, `convert_price`, `get_all_conversions`, `format_price` and `get_user_currency`.
- **The template helpers**: the `convert_price` and `price_tag` tags, and the `currency_symbol` and `format_currency` filters.
- **The view logic**:
  - the session-cart merge of `add_to_cart_ajax`;
  - the subtotals of the cart, checkout and payment views;
  - the shipping table, the 20 % tax and the final total;
  - what each view does with an empty cart;
  - the input checks of the signup view.
- **The product model**: `get_price`, `discount_percentage`, the field validators, and the rule that `save` fills in an empty slug.

Amounts are exact decimals, `Dec(mant, scale)`. These have the shape of a Python `Decimal` with exponent `-scale`, so `Dec(50, 0)` prints as "50" and `Dec(5000, 2)` prints as "50.00". Products and sums are exact. `quantize(Decimal('0.01'))` rounds half to even, which is the default context's rounding. That rounding is `Quantize2`, pinned down by the predicate `IsHalfEven` and the lemma `HalfEvenUnique`.

Two kinds of input are parameters rather than modelled operations:

- **The network.** The provider is an oracle `provider: nat -> ProviderReply`: `provider(k)` is the reply to the k-th request the service makes. The service state counts its requests, so "no request was made" means that counter did not move.
- **The clock and the database.** The clock is a parameter `now`, in seconds. The products table is a map from product ids to rows, and the session cart is a sequence of lines in the dict's insertion order.

Text is modelled with a reference reader for each written form:

- `FormatFixed2` is the `',.2f'` format. It rounds half to even, keeps the sign and groups digits with commas. `ParseFixed2` reads it back.
- `DecToString` is `str(Decimal)`. It uses plain notation, or scientific notation for very small numbers. `ParsePlain` reads back the plain notation.

The model keeps these behaviours of the code as written:

- `convert` quantizes with the decimal context's default rounding, half to even (core/currency_service.py:128).
- `cache.get` finds nothing once an entry has expired, and a failed request returns the fallback, so an expired entry is never reused, even when the provider is down (core/currency_service.py:45-69).
- Only a live reply reaches `cache.set`; the fallback snapshot is returned without being cached (core/currency_service.py:63-69).
- The live `rates` dict is stored and used as it arrives, codes outside the registry included (core/currency_service.py:59).
- The fallback table is `fallback_rates.get(base_currency, {})`, so an unknown base gets an empty table and every conversion from it into another currency raises (core/currency_service.py:97).
- `convert` resolves the rates before it checks the target, so an unknown target can cost a provider request (core/currency_service.py:119-123).
- Converting into another currency and back need not come within a cent of the start. On the fallback rates (core/currency_service.py:80, 84), `CurrencyService.RoundTripDrifts` turns 100 XOF into 0.16 USD and back into 99.20 XOF.

## Model

| member | source | states |
|---|---|---|
| Currencies.Codes | core/currency_service.py:17-36 | The registry's codes, in the dict's order. |
| Currencies.SymbolOr | core/currency_service.py:169-172 | A registry code gets that entry's symbol; any other code gets the given default. |
| Currencies.SupportedCodes | core/currency_service.py:17-36 | Exactly XOF, USD and EUR are supported. |
| Currencies.RegistryWellFormed | core/currency_service.py:17-36 | Codes are distinct, exactly one entry is the default, and that entry is XOF. |
| Currencies.Symbols | core/currency_service.py:17-36 | The symbols are FCFA, $ and €. |
| ExchangeRates.CacheKey | core/currency_service.py:44 | The key `exchange_rates_{base}`; distinct bases get distinct keys (`CacheKeyInjective`). |
| ExchangeRates.CacheKeyInjective | core/currency_service.py:44 | Two bases never share the key `exchange_rates_{base}`. |
| ExchangeRates.FallbackTable | core/currency_service.py:77-93 | A supported base gets a table over exactly the three codes that maps the base to 1.0. An unknown base gets an empty table. Every rate is positive. |
| ExchangeRates.FallbackRates | core/currency_service.py:95-100 | The fallback snapshot has the requested base, the fallback flag and the local time. |
| ExchangeRates.GetExchangeRates | core/currency_service.py:38-71 | A fresh hit makes no request; a miss makes exactly one. The cache changes only after a miss with a reply. Entries stay keyed by their own base and are never fallbacks. The result is a fallback exactly when it was a miss and the provider failed. |
| ExchangeRates.CacheHit | core/currency_service.py:44-47 | A hit returns the stored snapshot, whatever the provider would answer. |
| ExchangeRates.MissThenFetch | core/currency_service.py:47-64 | A miss followed by a reply stores the unfiltered rates under the base's key for 3600 s and returns them. |
| ExchangeRates.MissThenFailure | core/currency_service.py:66-69 | A miss followed by a failure returns the fallback and leaves the cache as it was. |
| ExchangeRates.ExpiredEntryNotReused | core/currency_service.py:45-69 | An expired entry is never served, even when the provider is down. |
| ExchangeRates.FetchServesTheHour | core/currency_service.py:63-64 | For one hour after a fetch, the same base is answered from the cache with no request. |
| ExchangeRates.FailureNotRemembered | core/currency_service.py:66-69 | After a failure, the next lookup asks the provider again. |
| ExchangeRates.FallbackContents | core/currency_service.py:77-100 | The fallback carries the requested base and the fallback flag. Each supported base maps to itself at 1.0, all rates are positive, and an unknown base's table is empty. |
| Decimals.Quantize2 | core/currency_service.py:128 | The result has two places and is the half-even rounding of the input. |
| Decimals.HalfEvenUnique | core/currency_service.py:128 | There is only one half-even rounding, so `Quantize2` is fully specified by its contract. |
| Decimals.QuantizeRespectsValue | core/currency_service.py:126-128 | Quantizing depends on the number only, not on its representation. |
| Decimals.QuantizeSign | core/currency_service.py:128 | Rounding keeps the sign, or gives zero. |
| CurrencyService.Convert | core/currency_service.py:115-128 | Converting a currency to itself returns the amount unchanged, with no cache access and no request. Otherwise the target's rate multiplies the amount, rounded half-even to two places. The conversion fails with `UnsupportedCurrency(to)` exactly when the resolved table has no rate for the target. |
| CurrencyService.ConvertPrice | core/currency_service.py:138-146 | Succeeds and fails with `convert`. The code is the target and the symbol is the registry's, or `''` for an unknown code. The text is the symbol, a space and `,.2f`. |
| CurrencyService.ConvertPriceShowsAmount | core/currency_service.py:143 | The formatted text reads back, after the symbol, as the converted amount in cents. |
| CurrencyService.ConvertAll | core/currency_service.py:156-165 | There is one entry per code, in order, each carrying its code, and the base's own entry is the amount unchanged. An empty list gives an empty breakdown and no request. The first entry is `convert_price` into the first code on the state as given; when that call fails, the loop fails with its error and state. An error always names one of the codes. At most one request is made per code. |
| CurrencyService.GetAllConversions | core/currency_service.py:148-165 | The breakdown has exactly the registry's codes, in registry order, and the base entry is the identity conversion. |
| CurrencyService.ConvertPriceFromCache | core/currency_service.py:115-146 | With fresh rates for the source cached, `convert_price` makes no request and leaves the cache alone. It succeeds exactly for the source itself and the codes the cached table has, and then gives the amount (for the source) or the amount times the cached rate, rounded half-even, with the registry symbol. |
| CurrencyService.ConvertAllFromCache | core/currency_service.py:156-165 | With fresh rates for the base cached, the breakdown makes no request and succeeds exactly when every code is the base or has a cached rate. |
| CurrencyService.ConvertAllEntries | core/currency_service.py:156-165 | Each entry of a successful breakdown from cached rates is the base amount itself or the amount times that code's cached rate, rounded half-even, with the registry symbol and its label. |
| CurrencyService.ConvertAllFirstMissing | core/currency_service.py:156-165 | A failing breakdown from cached rates fails on the first code that is neither the base nor in the cached table. |
| CurrencyService.ConvertAllMatchesConvertPrice | core/currency_service.py:156-162 | Each entry of a successful breakdown from cached rates is what `convert_price` gives for that code on its own. |
| CurrencyService.GetAllConversionsFromCache | core/currency_service.py:148-165 | From a base with fresh cached rates, no request is made. The breakdown succeeds exactly when the table covers the three registry codes, and then each entry is `convert_price` into its currency. Otherwise the error names the first registry code the table lacks. |
| CurrencyService.Labelled | core/currency_service.py:143 | The symbol, a space and the `,.2f` text of the amount, the shape shared by `convert_price`, `format_price` and `format_currency`. |
| CurrencyService.LabelledShowsAmount | core/currency_service.py:143 | After the symbol and a space, the label reads back as the half-even cents of the amount. |
| CurrencyService.FormatPrice | core/currency_service.py:169-173 | The text is the symbol (the code itself when unknown), a space, and text that reads back as the half-even cents of the amount. |
| CurrencyService.GetUserCurrency | core/currency_service.py:176-184 | XOF for an anonymous user and for a user without a preference; otherwise the preferred code. |
| CurrencyService.ConvertPriceFormatsLikeFormatPrice | core/currency_service.py:139-145 | For a registry currency, `convert_price`'s text is `format_price` of the converted amount. |
| CurrencyService.UnknownSourceOffline | core/currency_service.py:119-123 | With no fresh rates and the provider down, an unknown source fails for every other target. |
| CurrencyService.UnknownBaseBreakdownOffline | core/currency_service.py:156-165 | With no fresh rates and the provider down, an unknown base makes the whole breakdown fail. |
| CurrencyService.UnknownTargetAsksProvider | core/currency_service.py:119-123 | An unknown target fails only after a provider request has been made. |
| CurrencyService.FiftyEurosInFranc | core/currency_service.py:125-146 | On the fallback rates, 50 EUR is `FCFA 32,798.00`. |
| CurrencyService.EuroCentsInDollars | core/currency_service.py:125-128 | On the fallback rates, 19.99 EUR is 21.79 USD. |
| CurrencyService.ZeroEurosInFranc | core/currency_service.py:125-128 | 0 EUR converts to 0.00 XOF. |
| CurrencyService.TieGoesToEvenCent | core/currency_service.py:128 | 0.375 USD is 0.345 EUR, which rounds to 0.34 (half-up would give 0.35). |
| CurrencyService.RoundTripDrifts | core/currency_service.py:77-93 | 100 XOF becomes 0.16 USD, then 99.20 XOF. |
| TextFormat.NatDigits | core/currency_service.py:143 | The decimal digits of a natural number, without a leading zero, read back as that number. |
| TextFormat.Group | core/currency_service.py:143 | Comma grouping keeps the digits and the first digit, and groups them by three. |
| TextFormat.GroupUnique | core/currency_service.py:143 | A comma-grouped string is the grouping of its own digits: grouping is the only way to write them. |
| TextFormat.NatDigitsUnique | core/currency_service.py:143 | Digits without a leading zero are exactly the digits written for their value. |
| TextFormat.FormatFixed2 | core/currency_service.py:143 | The sign of the amount, the comma-grouped whole part, a point and two digits of the half-even cents. `FormatFixed2RoundTrip` and `ParseFixed2Canonical` make `ParseFixed2` its exact inverse. |
| TextFormat.FormatFixed2RoundTrip | core/currency_service.py:139-145 | `',.2f'` text reads back as the half-even cents of the amount. |
| TextFormat.ParseHundredthsCanonical | core/currency_service.py:143 | An unsigned body the reader accepts is exactly the grouped whole part, point and two digits written for the value it reads. |
| TextFormat.ParseFixed2Canonical | core/currency_service.py:143 | Every text `ParseFixed2` accepts is the `,.2f` text of the hundredths it reads, or `-0.00`. Padded text such as `007.50` or `0,007.50` is refused. |
| TextFormat.NegativeZeroText | core/currency_service.py:128-143 | -0.001 rounds to zero cents and still prints as `-0.00`: the sign comes from the amount, not from its rounding. |
| TextFormat.DecToString | core/template_tags/currency_tags.py:25 | `str(Decimal)`: plain notation showing every place of the exponent, or scientific notation once six zeros follow the point. `DecToStringRoundTrip` reads the plain form back. |
| TextFormat.DecToStringRoundTrip | core/template_tags/currency_tags.py:40-43 | In plain notation, `str(Decimal)` reads back as the same decimal, scale included. |
| CurrencyTags.Unconverted | core/template_tags/currency_tags.py:25 | The amount as `str` writes it, a space and the source code. |
| CurrencyTags.UnconvertedReadsBack | core/template_tags/currency_tags.py:24-25 | The fallback text is the amount exactly as given, a space, and the source code. |
| CurrencyTags.ConvertedText | core/template_tags/currency_tags.py:21-25 | The service's `formatted` on success, the unconverted fallback on any conversion error. Either way the rate lookup's state is kept. |
| CurrencyTags.SpanOpen | core/template_tags/currency_tags.py:40 | The opening span, carrying the amount as `str` writes it and the source code as data attributes. |
| CurrencyTags.PriceText | core/template_tags/currency_tags.py:38-43 | On success, a span carrying the original amount and currency around the formatted price. On error, the same fallback. |
| CurrencyTags.TargetAsWritten | core/template_tags/currency_tags.py:16-19 | Without a request the tag raises, because `get_user_currency(None)` reads an attribute of `None`. With a request it is the user's currency. |
| CurrencyTags.ConvertPriceTagAsWritten | core/template_tags/currency_tags.py:10-25 | Without a request it raises; with one it converts into `get_user_currency(user)`. |
| CurrencyTags.PriceTagAsWritten | core/template_tags/currency_tags.py:27-43 | Without a request it raises; with one it converts into `get_user_currency(user)`. |
| CurrencyTags.TagsFailWithoutRequest | core/template_tags/currency_tags.py:33-36 | Without a request both tags raise, although the corrected tag prints `FCFA 32,798.00` for 50 EUR. |
| CurrencyTags.ConvertPriceTag | core/template_tags/currency_tags.py:10-25 | Without a request it converts into the default XOF. With a request it is exactly the tag as written. |
| CurrencyTags.PriceTag | core/template_tags/currency_tags.py:27-43 | Without a request it converts into the default XOF. With a request it is exactly the tag as written. |
| CurrencyTags.PriceTagWrapsConvertPriceTag | core/template_tags/currency_tags.py:38-43 | `price_tag` is the `convert_price` tag's text inside the span, falls back to the same text, and touches the cache alike. |
| CurrencyTags.ConvertPriceTagShowsAmount | core/template_tags/currency_tags.py:19-23 | A converted price is the viewer currency's symbol followed by the converted amount in cents. |
| CurrencyTags.UnknownSourcePrintedAsIs | core/template_tags/currency_tags.py:21-25 | With no fresh rates and the provider down, an unknown source currency prints unconverted, and the text reads back as the amount. |
| CurrencyTags.CurrencySymbol | core/template_tags/currency_tags.py:45-52 | The registry symbol for XOF, USD and EUR; the code itself otherwise. |
| CurrencyTags.FormatCurrency | core/template_tags/currency_tags.py:54-63 | The same text as `format_price`: the symbol, a space, and text that reads back as the half-even cents. |
| CurrencyTags.FilterExamples | core/template_tags/currency_tags.py:45-63 | `'EUR'` shows €, `'GBP'` shows GBP, and 32798.00 XOF is `FCFA 32,798.00`. |
| Cart.AddLine | core/views.py:168-177 | A known id's quantity grows by the amount added, and a new id is appended with it. Every other entry and the order of ids are unchanged, and ids stay distinct. |
| Cart.TotalQuantity | core/views.py:183 | `sum(cart.values())`. `AddLineTotal` and `LinesAtMostUnits` relate it to the merge and to `len(cart)`. |
| Cart.AddLineTotal | core/views.py:172-183 | Merging adds exactly the requested quantity to the sum of quantities. |
| Cart.LinesAtMostUnits | core/views.py:183 | With quantities of at least 1, `len(cart)` is at most `sum(cart.values())`, with equality iff every quantity is 1. |
| Cart.AddToCartAjax | core/views.py:156-192 | Anything but a POST is 400 and an inactive or missing product is 404; neither changes the cart. Otherwise the quantity (1 by default) is merged, and `cart_count` is the old total plus that quantity. An error status never changes the cart. |
| Cart.Subtotal | core/views.py:137-147 | The view's loop: from zero, add price × quantity for each line whose product exists. `SubtotalExact`, `SubtotalSplits` and `SubtotalSkipsMissing` state its value. |
| Cart.SubtotalExact | core/views.py:137-147 | With prices at no more than s places, the left-fold subtotal is exactly the front-to-back sum of price × quantity over existing products. |
| Cart.SubtotalSkipsMissing | core/views.py:138-147 | A line whose product does not exist leaves the subtotal unchanged, wherever it sits. |
| Cart.SubtotalSplits | core/views.py:137-147 | The subtotal of a cart split in two is the sum of the two parts' subtotals. |
| Cart.SubtotalNonNegative | core/views.py:137-147 | Non-negative prices and quantities give a non-negative subtotal. |
| Checkout.CartView | core/views.py:131-154 | The count is the number of distinct lines. The total is, to the cent, the sum over existing products. |
| Checkout.ComputeTotals | core/views.py:219-230 | The checkout page's figures: the subtotal, the shipping for the choice, the tax on the subtotal, and their final total. `FinalTotalInCents` gives that total in cents and `PaymentChargesCheckoutTotal` shows the payment charges it. |
| Checkout.ShippingCost | core/views.py:261-267 | Express costs 9.99 and overnight costs 19.99; every other method is free. |
| Checkout.ShippingCostBounded | core/views.py:221-226 | Shipping costs between 0 and 19.99, and is non-zero exactly for express and overnight. |
| Checkout.Tax | core/views.py:269 | The tax has two places and is the half-even rounding of 20 % of the subtotal. |
| Checkout.TaxNeverTies | core/views.py:269 | With a subtotal at no more than two places, the tax is never a tie, so half-even and half-up agree on it. |
| Checkout.FinalTotal | core/views.py:270 | The total has two places. With inputs at no more than two places it is their exact sum. |
| Checkout.FinalTotalInCents | core/views.py:253-270 | With two-place prices, the total is the cents subtotal plus shipping plus tax. |
| Checkout.EmptySubtotalCostsShipping | core/views.py:216-230 | A zero subtotal gives a zero tax and a total equal to the shipping. |
| Checkout.CheckoutView | core/views.py:194-240 | The page redirects exactly when the cart is empty; otherwise it shows the totals for the posted method, `standard` by default. |
| Checkout.ProcessPaymentAsWritten | core/views.py:242-312 | A payment succeeds exactly for a POST with a readable body, a non-empty cart and a guest customer. A refusal keeps the cart. |
| Checkout.SignedInPaymentAlwaysRefused | core/views.py:282-310 | A signed-in customer's payment is always refused and the cart is kept. |
| Checkout.ProcessPayment | core/views.py:242-312 | Refusals come in the source's order: not POST, then unreadable body, then empty cart. A payment succeeds exactly when none applies, and empties the cart. For guests it equals the code as written. |
| Checkout.PaymentChargesCheckoutTotal | core/views.py:253-270 | The amount charged is the final total the checkout page shows for the same cart and method. |
| Checkout.NoSecondPayment | core/views.py:249-301 | After a payment, a second payment is refused for an empty cart and checkout redirects. |
| Checkout.ExpressExample | core/views.py:219-230 | 49.99 with express shipping has a tax of 10.00 and a total of 69.98. |
| Signup.SignupView | core/views.py:366-404 | Exactly the signed-in users are redirected, and exactly a GET from anyone else gets the blank form. A missing email or password, a mismatched confirmation and a taken email are each the outcome exactly when that check is the first to fail, in that order. An account is created exactly when none applies. |
| Signup.MissingBeforeMismatch | core/views.py:380-386 | Without an email or a password, the confirmation and the user table are never looked at. |
| Signup.CreatedOnlyOnce | core/views.py:384-392 | An account needs a matching confirmation, and the same email cannot sign up twice. |
| Catalog.GetPrice | core/models.py:77-80 | The discount price when it is present and non-zero; the list price otherwise. |
| Catalog.DiscountPercentage | core/models.py:82-87 | Zero unless both prices are non-zero. Otherwise the integer nearest to (price − discount) / price × 100, a tie going to even. |
| Catalog.DiscountPercentageBounds | core/models.py:82-87 | A discount between zero (exclusive) and the list price saves between 0 and 100 percent. |
| Catalog.NoSavingAtListPrice | core/models.py:82-87 | A discount equal to the list price saves 0 percent. |
| Catalog.ProductErrors | core/models.py:44-54 | Each field is rejected exactly when its bound fails: negative price, negative discount, negative stock, or a rating outside 0 to 5. |
| Catalog.ValidProductPrice | core/models.py:77-87 | A product that passes validation has a non-negative selling price, and a percentage between 0 and 100 when the discount is at most the price. |
| Catalog.SlugOnSave | core/models.py:72-75 | A non-empty slug is kept; an empty one becomes `slugify(name)`. |
| Catalog.SaveProduct | core/models.py:72-75 | Saving changes nothing but the slug. |
| Catalog.SaveCategory | core/models.py:23-26 | Saving changes nothing but the slug. |
| Catalog.SaveKeepsSlug | core/models.py:72-75 | Saving is idempotent, and a slug once set survives a later change of name. |

The bounds on `OrderItem.quantity` (at least 1, core/models.py:144) and `Review.rating` (1 to 5, core/models.py:156) are the predicates `Catalog.ValidQuantity` and `Catalog.ValidReviewRating`.

## Left out

- The HTTP request to the provider and its JSON decoding are the oracle `provider`. Every `RequestException` is the reply `Unavailable`, and the decoded `rates` and `time_last_updated` fields are the reply's contents.
- Rates in a live reply that are not numbers, and amounts that are not numbers, are not modelled: they would raise `InvalidOperation` in `Decimal(str(...))`.
- A live reply whose `rates` field is present but not an object (`null`, a list, a number) is not modelled. The source caches it as it is (core/currency_service.py:59); `convert` then evaluates `to_currency not in rates` on it and raises `TypeError` (line 122), where the model's `rates` can only be a table or absent, and absent reads as an empty table, which gives `UnsupportedCurrency` instead.
- The `print` of a provider error is console output and is not modelled.
- Django's cache backend is a map with expiry times; expired entries are not deleted from the map, which no lookup can observe.
- Float amounts and float-formatted integers are not modelled; amounts are decimals. Rates are Python numbers wherever they come from: the float literals of the fallback table, and whatever `response.json()` decodes from a live reply (core/currency_service.py:55-59). `convert` reads each through `Decimal(str(rate))` (core/currency_service.py:125), so every rate is held as the exact decimal of its `str`; for a live rate, the oracle supplies that decimal.
- The 28-digit precision of the decimal context is not modelled; every operation is exact.
- Signed zero is not modelled: `Dec(0, s)` has no sign.
- Catalog.DiscountPercentage: the quotient is exact rather than rounded to 28 digits. With the 10-digit prices the field allows, this rounding cannot move a quotient across a half, so the result is the same.
- TextFormat.DecToStringRoundTrip: it covers the plain-notation range only. `DecToString` also writes scientific notation for very small numbers, but `ParsePlain` does not read it.
- CurrencyService.GetUserCurrency: the preference record of a signed-in user is an optional code. The attribute lookups on a model outside this repository, and the bare `except` around them, are folded into "no preference".
- `slugify` is a parameter of `Catalog.SlugOnSave`.
- The ORM, sessions, messages, rendering, authentication and redirects are outside this model. The products table is a map, the session cart a sequence, and every page its figures.
- The order record created for a signed-in customer is not modelled, nor are order items, which the source never creates.
- Cart.AddToCartAjax: a body that is not JSON, or a quantity that `int()` rejects, raises outside any handler and ends in a server error; it is not modelled. Product ids are numbers, so an id such as `"05"` whose string differs from the stored key is not modelled either.
- The Django `DecimalValidator` limits of 10 digits and 2 places are not modelled; prices of any scale are allowed, and the lemmas state the scale they need.
- Concurrency is not modelled. Two requests that miss the cache at the same time each ask the provider, and every process has its own local-memory cache; the model is one sequential service state.
- A live body that is not JSON counts as `Unavailable` only with `requests` 2.27 or later, where `response.json()` raises a `RequestException`; with older versions its `ValueError` escapes `get_exchange_rates`. A live body that decodes to something other than an object makes `data.get` raise outside the handler (core/currency_service.py:55-59). Neither case is modelled.
- Default arguments are not modelled; every call names its currencies. The defaults are `'EUR'` for the source currency of both tags (core/template_tags/currency_tags.py:11, 28), `'XOF'` and `'USD'` for `convert` and `convert_price` (core/currency_service.py:103, 131), and `'XOF'` for `get_exchange_rates`, `get_all_conversions`, `format_price` and `format_currency` (core/currency_service.py:39, 149, 169; core/template_tags/currency_tags.py:55).
- Signup.SignupView: the `except` around `create_user` (core/views.py:395-406) shows the form again when the database refuses the new user; the model's account creation always succeeds.
- Checkout.ProcessPayment: a body that is valid JSON but not an object (`[1]`, `"x"`) passes `json.loads`. With a non-empty cart, `data.get` then raises `AttributeError`, which the handler turns into a 400 that keeps the cart (core/views.py:246-261, 309-310). The body is an `Option<PaymentData>` and cannot represent it, nor a `shipping_method` that is not a string. The same holds for Checkout.ProcessPaymentAsWritten.
- The login view, the dashboard and admin screens, the forms, the JavaScript converter, the setup scripts and the settings are not part of this model.

## Findings

| source | as written | input that shows it | evidently intended | confidence | as-written member | corrected member |
|---|---|---|---|---|---|---|
| core/template_tags/currency_tags.py:16-19 | With no request in the context, the tag calls `get_user_currency(None)` before its `try`. That reads `None.is_authenticated` and raises `AttributeError`. | `{% convert_price 50 'EUR' %}` rendered from a context without `request` | Convert for an anonymous viewer, into XOF, as `request.user if request else None` anticipates | not executed; high | CurrencyTags.ConvertPriceTagAsWritten | CurrencyTags.ConvertPriceTag |
| core/template_tags/currency_tags.py:33-36 | The same call in `price_tag` raises the same `AttributeError`. | `{% price_tag 50 'EUR' %}` rendered from a context without `request` | Convert into XOF inside the span | not executed; high | CurrencyTags.PriceTagAsWritten | CurrencyTags.PriceTag |
| core/views.py:282-288 | For a signed-in customer, `Order.objects.create` receives `shipping_method`, a field `Order` does not have (core/models.py:101-131). It raises `TypeError`, lines 309-310 turn that into a 400, and the cart is kept. | A signed-in customer POSTs a valid payment body with a non-empty cart | Record the order, clear the cart and report the total, as for a guest | not executed; high | Checkout.ProcessPaymentAsWritten | Checkout.ProcessPayment |
