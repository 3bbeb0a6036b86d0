/**
 * The template helpers of `core/template_tags/currency_tags.py`: the
 * `convert_price` and `price_tag` tags, which convert into the viewer's
 * currency and fall back to the unconverted amount when conversion raises,
 * and the `currency_symbol` and `format_currency` filters.
 */
module CurrencyTags {
  import opened Wrappers
  import opened Decimals
  import opened TextFormat
  import opened ExchangeRates
  import opened CurrencyService
  import Currencies

  /** What the template context holds under `'request'`: nothing, or a
      request made by `user`. */
  datatype Requester = NoRequest | Request(user: User)

  /** The `AttributeError` of reading `is_authenticated` on `None`. */
  datatype TagError = NoUserAttribute

  /** The rendered text together with the service state afterwards. */
  datatype Rendered = Rendered(text: string, svc: Service)

  /** What the tags print when conversion raises: `f"{amount} {from}"`. */
  function Unconverted(amount: Dec, from: string): string {
    DecToString(amount) + " " + from
  }

  /** The fallback text names the amount exactly as given and the source
      currency. */
  lemma UnconvertedReadsBack(amount: Dec, from: string)
    requires |NatDigits(Abs(amount.mant))| - amount.scale > -6
    ensures var t := Unconverted(amount, from);
            var k := |DecToString(amount)|;
            && k < |t|
            && ParsePlain(t[..k]) == Some(amount)
            && t[k..] == " " + from
  {
    var t := Unconverted(amount, from);
    var k := |DecToString(amount)|;
    assert t[..k] == DecToString(amount);
    assert t[k..] == " " + from;
    DecToStringRoundTrip(amount);
  }

  /** The text `convert_price` shows for a conversion into `to`: the
      service's `formatted`, or the fallback when the service raises. */
  function ConvertedText(svc: Service, amount: Dec, from: string, to: string, now: int, provider: Provider): (r: Rendered)
    ensures var c := ConvertPrice(svc, amount, from, to, now, provider);
            && r.svc == c.svc
            && (c.result.Success? ==> r.text == c.result.value.formatted)
            && (c.result.Failure? ==> r.text == Unconverted(amount, from))
  {
    var c := ConvertPrice(svc, amount, from, to, now, provider);
    match c.result
    case Success(info) => Rendered(info.formatted, c.svc)
    case Failure(_) => Rendered(Unconverted(amount, from), c.svc)
  }

  /** The opening tag of `price_tag`, carrying the original amount and
      currency for the client-side converter. */
  function SpanOpen(amount: Dec, from: string): string {
    "<span class=\"currency-price\" data-base-amount=\"" + DecToString(amount)
      + "\" data-base-currency=\"" + from + "\">"
  }

  /** The text `price_tag` shows for a conversion into `to`. */
  function PriceText(svc: Service, amount: Dec, from: string, to: string, now: int, provider: Provider): (r: Rendered)
    ensures var c := ConvertPrice(svc, amount, from, to, now, provider);
            && r.svc == c.svc
            && (c.result.Success? ==> r.text == SpanOpen(amount, from) + c.result.value.formatted + "</span>")
            && (c.result.Failure? ==> r.text == Unconverted(amount, from))
  {
    var c := ConvertPrice(svc, amount, from, to, now, provider);
    match c.result
    case Success(info) => Rendered(SpanOpen(amount, from) + info.formatted + "</span>", c.svc)
    case Failure(_) => Rendered(Unconverted(amount, from), c.svc)
  }

  // ---------------------------------------------------------------------
  // The tags as written
  // ---------------------------------------------------------------------

  /** `get_user_currency(request.user if request else None)` as written:
      with no request, `get_user_currency(None)` reads `None.is_authenticated`
      and raises, before the tag's `try` begins. */
  function TargetAsWritten(req: Requester): (r: Result<string, TagError>)
    ensures req.NoRequest? ==> r == Failure(NoUserAttribute)
    ensures req.Request? ==> r == Success(GetUserCurrency(req.user))
  {
    match req
    case NoRequest => Failure(NoUserAttribute)
    case Request(user) => Success(GetUserCurrency(user))
  }

  /** The `convert_price` tag as written. */
  function ConvertPriceTagAsWritten(svc: Service, req: Requester, amount: Dec, from: string, now: int, provider: Provider): (r: Result<Rendered, TagError>)
    ensures req.NoRequest? ==> r == Failure(NoUserAttribute)
    ensures req.Request? ==> r == Success(ConvertedText(svc, amount, from, GetUserCurrency(req.user), now, provider))
  {
    match TargetAsWritten(req)
    case Failure(e) => Failure(e)
    case Success(to) => Success(ConvertedText(svc, amount, from, to, now, provider))
  }

  /** `price_tag` as written. */
  function PriceTagAsWritten(svc: Service, req: Requester, amount: Dec, from: string, now: int, provider: Provider): (r: Result<Rendered, TagError>)
    ensures req.NoRequest? ==> r == Failure(NoUserAttribute)
    ensures req.Request? ==> r == Success(PriceText(svc, amount, from, GetUserCurrency(req.user), now, provider))
  {
    match TargetAsWritten(req)
    case Failure(e) => Failure(e)
    case Success(to) => Success(PriceText(svc, amount, from, to, now, provider))
  }

  /** Rendered without a request, both tags raise instead of printing the
      price in the default currency, even though conversion would succeed:
      with the provider down, 50 EUR would show as "FCFA 32,798.00". */
  lemma TagsFailWithoutRequest(svc: Service, now: int, provider: Provider)
    requires Offline(svc, "EUR", now, provider)
    ensures ConvertPriceTagAsWritten(svc, NoRequest, Dec(50, 0), "EUR", now, provider).Failure?
    ensures PriceTagAsWritten(svc, NoRequest, Dec(50, 0), "EUR", now, provider).Failure?
    ensures ConvertPriceTag(svc, NoRequest, Dec(50, 0), "EUR", now, provider).text == "FCFA 32,798.00"
  {
    FiftyEurosInFranc(svc, now, provider);
  }

  // ---------------------------------------------------------------------
  // The tags as intended
  // ---------------------------------------------------------------------

  /** The user the tags convert for: nobody signed in when there is no
      request. */
  function Viewer(req: Requester): User {
    match req
    case NoRequest => AnonymousUser
    case Request(user) => user
  }

  /** The `convert_price` tag: the price converted into the viewer's
      currency, or the unconverted amount when conversion raises. */
  function ConvertPriceTag(svc: Service, req: Requester, amount: Dec, from: string, now: int, provider: Provider): (r: Rendered)
    ensures req.NoRequest? ==> r == ConvertedText(svc, amount, from, Currencies.DefaultCurrency, now, provider)
    ensures req.Request? ==> ConvertPriceTagAsWritten(svc, req, amount, from, now, provider) == Success(r)
  {
    ConvertedText(svc, amount, from, GetUserCurrency(Viewer(req)), now, provider)
  }

  /** `price_tag`: the converted price inside a span that records the
      original amount and currency, with the same fallback. */
  function PriceTag(svc: Service, req: Requester, amount: Dec, from: string, now: int, provider: Provider): (r: Rendered)
    ensures req.NoRequest? ==> r == PriceText(svc, amount, from, Currencies.DefaultCurrency, now, provider)
    ensures req.Request? ==> PriceTagAsWritten(svc, req, amount, from, now, provider) == Success(r)
  {
    PriceText(svc, amount, from, GetUserCurrency(Viewer(req)), now, provider)
  }

  /** `price_tag` is the `convert_price` tag's text inside the span, and
      falls back to the very same text; both touch the rates alike. */
  lemma PriceTagWrapsConvertPriceTag(svc: Service, req: Requester, amount: Dec, from: string, now: int, provider: Provider)
    ensures var plain := ConvertPriceTag(svc, req, amount, from, now, provider);
            var span := PriceTag(svc, req, amount, from, now, provider);
            var converted := ConvertPrice(svc, amount, from, GetUserCurrency(Viewer(req)), now, provider).result.Success?;
            && span.svc == plain.svc
            && (converted ==> span.text == SpanOpen(amount, from) + plain.text + "</span>")
            && (!converted ==> span.text == plain.text == Unconverted(amount, from))
  {
  }

  /** A converted price reads back as the converted amount, in cents,
      after the symbol of the viewer's currency. */
  lemma ConvertPriceTagShowsAmount(svc: Service, req: Requester, amount: Dec, from: string, now: int, provider: Provider)
    requires ConvertPrice(svc, amount, from, GetUserCurrency(Viewer(req)), now, provider).result.Success?
    ensures var to := GetUserCurrency(Viewer(req));
            var t := ConvertPriceTag(svc, req, amount, from, now, provider).text;
            var symbol := Currencies.SymbolOr(to, "");
            var converted := Convert(svc, amount, from, to, now, provider).result.value;
            && |t| > |symbol|
            && t[..|symbol| + 1] == symbol + " "
            && ParseFixed2(t[|symbol| + 1..]) == Some(Quantize2(converted).mant)
            && (from != to ==> Quantize2(converted) == converted)
  {
    var to := GetUserCurrency(Viewer(req));
    var info := ConvertPrice(svc, amount, from, to, now, provider).result.value;
    LabelledShowsAmount(info.symbol, info.amount);
    if from != to {
      QuantizeKeepsTwoPlaces(info.amount);
    }
  }

  /** With no fresh rates and the provider down, an unknown source currency
      is printed unconverted, whatever the viewer's currency, and reads back
      as the amount given. */
  lemma UnknownSourcePrintedAsIs(svc: Service, req: Requester, amount: Dec, from: string, now: int, provider: Provider)
    requires !Currencies.Supported(from) && from != GetUserCurrency(Viewer(req))
    requires Offline(svc, from, now, provider)
    requires |NatDigits(Abs(amount.mant))| - amount.scale > -6
    ensures var t := ConvertPriceTag(svc, req, amount, from, now, provider).text;
            var k := |DecToString(amount)|;
            && t == Unconverted(amount, from)
            && ParsePlain(t[..k]) == Some(amount)
  {
    UnknownSourceOffline(svc, amount, from, GetUserCurrency(Viewer(req)), now, provider);
    UnconvertedReadsBack(amount, from);
  }

  // ---------------------------------------------------------------------
  // Filters
  // ---------------------------------------------------------------------

  /** `currency_symbol(code)`: the registry symbol, or the code itself for
      a currency outside the registry. */
  function CurrencySymbol(code: string): (s: string)
    ensures Currencies.Supported(code) ==>
              exists i :: 0 <= i < |Currencies.Registry| && Currencies.Registry[i].code == code
                          && Currencies.Registry[i].info.symbol == s
    ensures !Currencies.Supported(code) ==> s == code
  {
    Currencies.SymbolOr(code, code)
  }

  /** `format_currency(amount, code)`: the symbol, a space and the amount
      with comma thousands separators and two decimals; the same text as
      the service's `format_price`. */
  function FormatCurrency(amount: Dec, code: string): (s: string)
    ensures s == FormatPrice(amount, code)
    ensures var symbol := CurrencySymbol(code);
            && |s| > |symbol|
            && s[..|symbol| + 1] == symbol + " "
            && ParseFixed2(s[|symbol| + 1..]) == Some(Quantize2(amount).mant)
  {
    Labelled(CurrencySymbol(code), amount)
  }

  /** The filters on the registry currencies. */
  lemma FilterExamples()
    ensures CurrencySymbol("EUR") == "\U{20AC}"
    ensures CurrencySymbol("GBP") == "GBP"
    ensures FormatCurrency(Dec(3279800, 2), "XOF") == "FCFA 32,798.00"
  {
    Currencies.SupportedCodes("GBP");
    Currencies.Symbols();
    FrancLabel();
  }
}
