/**
 * The conversion facade of `CurrencyConverter`: `convert`, `convert_price`,
 * `get_all_conversions`, and the helpers `format_price` and
 * `get_user_currency`. Every operation that may reach the rate cache takes
 * the service state, the clock and the provider, and returns the new state
 * alongside its result.
 */
module CurrencyService {
  import opened Wrappers
  import opened Decimals
  import opened TextFormat
  import opened ExchangeRates
  import Currencies

  /** The `ValueError` raised when the target has no rate. */
  datatype ConvertError = UnsupportedCurrency(code: string)

  /** A result together with the service state after the call. */
  datatype Step<T> = Step(result: Result<T, ConvertError>, svc: Service)

  /** The dict `convert_price` returns. */
  datatype PriceInfo = PriceInfo(amount: Dec, formatted: string, symbol: string, code: string)

  /** `CurrencyConverter.convert(amount, from, to)`. */
  function Convert(svc: Service, amount: Dec, from: string, to: string, now: int, provider: Provider): (r: Step<Dec>)
    // the same currency: the amount exactly as given, without touching the cache or the provider
    ensures from == to ==> r == Step(Success(amount), svc)
    // otherwise the rates of `from` are resolved, and only their state change remains
    ensures from != to ==> r.svc == GetExchangeRates(svc, from, now, provider).svc
    ensures from != to ==> (r.result.Success? <==> to in RatesFor(svc, from, now, provider))
    // the product with the rate, rounded half-even to exactly two places
    ensures from != to && r.result.Success? ==>
              var rate := RatesFor(svc, from, now, provider)[to];
              && r.result.value.scale == 2
              && IsHalfEven(amount.mant * rate.mant * 100, Pow10(amount.scale + rate.scale), r.result.value.mant)
    ensures r.result.Failure? ==> r.result.error == UnsupportedCurrency(to)
  {
    if from == to then Step(Success(amount), svc)
    else
      var lookup := GetExchangeRates(svc, from, now, provider);
      var rates := lookup.snapshot.rates;
      if to !in rates then Step(Failure(UnsupportedCurrency(to)), lookup.svc)
      else
        var product := Mul(amount, rates[to]);
        assert product.mant == amount.mant * rates[to].mant;
        Step(Success(Quantize2(product)), lookup.svc)
  }

  /** A symbol, a space and the amount as `,.2f`: the text of `format_price`,
      `format_currency` and `convert_price`. */
  function Labelled(symbol: string, amount: Dec): string {
    symbol + " " + FormatFixed2(amount)
  }

  /** The label is followed by the half-even rounding of the amount to cents. */
  lemma LabelledShowsAmount(symbol: string, amount: Dec)
    ensures |Labelled(symbol, amount)| > |symbol|
    ensures Labelled(symbol, amount)[..|symbol| + 1] == symbol + " "
    ensures ParseFixed2(Labelled(symbol, amount)[|symbol| + 1..]) == Some(Quantize2(amount).mant)
  {
    var s := Labelled(symbol, amount);
    assert s[..|symbol| + 1] == symbol + " ";
    assert s[|symbol| + 1..] == FormatFixed2(amount);
    FormatFixed2RoundTrip(amount);
  }

  /** `convert_price(price, from, to)`: the converted amount with the target's
      symbol (`''` for an unknown code) and its `,.2f` rendering. */
  function ConvertPrice(svc: Service, price: Dec, from: string, to: string, now: int, provider: Provider): (r: Step<PriceInfo>)
    ensures r.svc == Convert(svc, price, from, to, now, provider).svc
    ensures r.result.Success? <==> Convert(svc, price, from, to, now, provider).result.Success?
    ensures r.result.Failure? ==> r.result.error == UnsupportedCurrency(to)
    ensures r.result.Success? ==>
              var info := r.result.value;
              && info.amount == Convert(svc, price, from, to, now, provider).result.value
              && info.code == to
              && info.symbol == Currencies.SymbolOr(to, "")
              && info.formatted == Labelled(info.symbol, info.amount)
  {
    var c := Convert(svc, price, from, to, now, provider);
    match c.result
    case Failure(e) => Step(Failure(e), c.svc)
    case Success(amount) =>
      var symbol := Currencies.SymbolOr(to, "");
      Step(Success(PriceInfo(amount, Labelled(symbol, amount), symbol, to)), c.svc)
  }

  /** What `convert_price` displays reads back as the converted amount. */
  lemma ConvertPriceShowsAmount(svc: Service, price: Dec, from: string, to: string, now: int, provider: Provider)
    requires ConvertPrice(svc, price, from, to, now, provider).result.Success?
    ensures var info := ConvertPrice(svc, price, from, to, now, provider).result.value;
            && info.formatted[..|info.symbol| + 1] == info.symbol + " "
            && ParseFixed2(info.formatted[|info.symbol| + 1..]) == Some(Quantize2(info.amount).mant)
  {
    var info := ConvertPrice(svc, price, from, to, now, provider).result.value;
    LabelledShowsAmount(info.symbol, info.amount);
  }

  /** `infos` has one entry per code, in order, and the entry for the base
      currency itself is the amount unchanged. */
  predicate Breakdown(infos: seq<PriceInfo>, codes: seq<string>, base: string, amount: Dec) {
    && |infos| == |codes|
    && (forall i :: 0 <= i < |codes| ==> infos[i].code == codes[i])
    && (forall i :: 0 <= i < |codes| && codes[i] == base ==> infos[i].amount == amount)
  }

  lemma BreakdownCons(info: PriceInfo, infos: seq<PriceInfo>, codes: seq<string>, base: string, amount: Dec)
    requires |codes| > 0 && info.code == codes[0] && (codes[0] == base ==> info.amount == amount)
    requires Breakdown(infos, codes[1..], base, amount)
    ensures Breakdown([info] + infos, codes, base, amount)
  {
    var r := [info] + infos;
    assert forall i :: 0 < i < |codes| ==> r[i] == infos[i - 1] && codes[i] == codes[1..][i - 1];
  }

  /** The loop of `get_all_conversions` over `codes`, threading the cache.
      The first failing conversion aborts the whole breakdown. */
  function ConvertAll(svc: Service, amount: Dec, base: string, codes: seq<string>, now: int, provider: Provider): (r: Step<seq<PriceInfo>>)
    ensures r.result.Success? ==> Breakdown(r.result.value, codes, base, amount)
    ensures codes == [] ==> r == Step(Success([]), svc)
    // the first conversion is `convert_price` on the state as given, and its failure is the loop's
    ensures codes != [] ==>
              var first := ConvertPrice(svc, amount, base, codes[0], now, provider);
              && (first.result.Failure? ==> r == Step(Failure(first.result.error), first.svc))
              && (r.result.Success? ==> first.result.Success? && r.result.value[0] == first.result.value)
    ensures r.result.Failure? ==> exists i :: 0 <= i < |codes| && r.result.error == UnsupportedCurrency(codes[i])
    ensures svc.requests <= r.svc.requests <= svc.requests + |codes|
    decreases |codes|
  {
    if codes == [] then Step(Success([]), svc)
    else
      var first := ConvertPrice(svc, amount, base, codes[0], now, provider);
      match first.result
      case Failure(e) => Step(Failure(e), first.svc)
      case Success(info) =>
        var rest := ConvertAll(first.svc, amount, base, codes[1..], now, provider);
        match rest.result
        case Failure(e) => Step(Failure(e), rest.svc)
        case Success(infos) =>
          BreakdownCons(info, infos, codes, base, amount);
          Step(Success([info] + infos), rest.svc)
  }

  /** `get_all_conversions(amount, base)`: one entry per registry currency, in
      registry order, the base's own entry being the amount unchanged. */
  function GetAllConversions(svc: Service, amount: Dec, base: string, now: int, provider: Provider): (r: Step<seq<PriceInfo>>)
    ensures r.result.Success? ==> |r.result.value| == |Currencies.Registry|
    ensures r.result.Success? ==>
              forall i :: 0 <= i < |Currencies.Registry| ==> r.result.value[i].code == Currencies.Registry[i].code
    ensures r.result.Success? ==>
              forall i :: 0 <= i < |Currencies.Registry| && Currencies.Registry[i].code == base ==>
                r.result.value[i].amount == amount
  {
    ConvertAll(svc, amount, base, Currencies.Codes(), now, provider)
  }

  /** The rates a fresh cache entry holds for `base`. */
  function CachedRates(svc: Service, base: string): RateTable
    requires CacheKey(base) in svc.cache
  {
    svc.cache[CacheKey(base)].snapshot.rates
  }

  /** `code` converts from `base` on the cached table: it is the base itself or has a rate. */
  predicate Covered(svc: Service, base: string, code: string)
    requires CacheKey(base) in svc.cache
  {
    code == base || code in CachedRates(svc, base)
  }

  /** A reference for one entry of the breakdown, read straight off the cached
      table: the amount itself for the base, and otherwise the amount times
      the cached rate, rounded half-even to cents. */
  function CachedInfo(svc: Service, amount: Dec, base: string, code: string): PriceInfo
    requires CacheKey(base) in svc.cache && Covered(svc, base, code)
  {
    var converted := if code == base then amount else Quantize2(Mul(amount, CachedRates(svc, base)[code]));
    var symbol := Currencies.SymbolOr(code, "");
    PriceInfo(converted, Labelled(symbol, converted), symbol, code)
  }

  /** With fresh rates for the source cached, `convert_price` leaves the state
      as it was, succeeds exactly for the codes the cached table covers, and
      then gives the reference entry. */
  lemma ConvertPriceFromCache(svc: Service, amount: Dec, from: string, to: string, now: int, provider: Provider)
    requires Fresh(svc.cache, CacheKey(from), now)
    ensures var r := ConvertPrice(svc, amount, from, to, now, provider);
            && r.svc == svc
            && (r.result.Success? <==> Covered(svc, from, to))
            && (r.result.Success? ==> r.result.value == CachedInfo(svc, amount, from, to))
  {
    CacheHit(svc, from, now, provider, provider);
  }

  /** With fresh rates for the base cached, the breakdown makes no request and
      leaves the cache alone. It succeeds exactly when every code is the base
      or has a cached rate. */
  lemma {:induction false} ConvertAllFromCache(svc: Service, amount: Dec, base: string, codes: seq<string>, now: int, provider: Provider)
    requires Fresh(svc.cache, CacheKey(base), now)
    ensures var r := ConvertAll(svc, amount, base, codes, now, provider);
            && r.svc == svc
            && (r.result.Success? <==> forall i :: 0 <= i < |codes| ==> Covered(svc, base, codes[i]))
    decreases |codes|
  {
    if codes != [] {
      ConvertPriceFromCache(svc, amount, base, codes[0], now, provider);
      ConvertAllFromCache(svc, amount, base, codes[1..], now, provider);
      assert forall i :: 0 < i < |codes| ==> codes[i] == codes[1..][i - 1];
    }
  }

  /** A successful breakdown from cached rates holds, at each position, the
      reference entry for that code. */
  lemma {:induction false} ConvertAllEntries(svc: Service, amount: Dec, base: string, codes: seq<string>, now: int, provider: Provider)
    requires Fresh(svc.cache, CacheKey(base), now)
    requires ConvertAll(svc, amount, base, codes, now, provider).result.Success?
    ensures var infos := ConvertAll(svc, amount, base, codes, now, provider).result.value;
            forall i :: 0 <= i < |codes| ==> Covered(svc, base, codes[i]) && infos[i] == CachedInfo(svc, amount, base, codes[i])
    decreases |codes|
  {
    if codes != [] {
      ConvertPriceFromCache(svc, amount, base, codes[0], now, provider);
      ConvertAllEntries(svc, amount, base, codes[1..], now, provider);
      var infos := ConvertAll(svc, amount, base, codes, now, provider).result.value;
      var rest := ConvertAll(svc, amount, base, codes[1..], now, provider).result.value;
      forall i | 0 < i < |codes|
        ensures Covered(svc, base, codes[i]) && infos[i] == CachedInfo(svc, amount, base, codes[i])
      {
        assert codes[i] == codes[1..][i - 1];
        assert infos[i] == rest[i - 1];
      }
    }
  }

  /** A breakdown from cached rates that fails names the first code that is
      neither the base nor in the cached table. */
  lemma {:induction false} ConvertAllFirstMissing(svc: Service, amount: Dec, base: string, codes: seq<string>, now: int, provider: Provider)
    requires Fresh(svc.cache, CacheKey(base), now)
    requires ConvertAll(svc, amount, base, codes, now, provider).result.Failure?
    ensures exists k :: FirstMissing(svc, base, codes, k)
              && ConvertAll(svc, amount, base, codes, now, provider).result.error == UnsupportedCurrency(codes[k])
    decreases |codes|
  {
    var r := ConvertAll(svc, amount, base, codes, now, provider);
    ConvertPriceFromCache(svc, amount, base, codes[0], now, provider);
    if Covered(svc, base, codes[0]) {
      ConvertAllFirstMissing(svc, amount, base, codes[1..], now, provider);
      var k :| FirstMissing(svc, base, codes[1..], k)
               && ConvertAll(svc, amount, base, codes[1..], now, provider).result.error == UnsupportedCurrency(codes[1..][k]);
      assert forall i :: 0 < i < |codes| ==> codes[i] == codes[1..][i - 1];
      assert FirstMissing(svc, base, codes, k + 1);
    } else {
      assert FirstMissing(svc, base, codes, 0);
    }
  }

  /** `codes[k]` is the first code that is neither the base nor in the cached table. */
  predicate FirstMissing(svc: Service, base: string, codes: seq<string>, k: int)
    requires CacheKey(base) in svc.cache
  {
    && 0 <= k < |codes|
    && !Covered(svc, base, codes[k])
    && forall i :: 0 <= i < k ==> Covered(svc, base, codes[i])
  }

  /** A successful breakdown from cached rates holds, at each position, what
      `convert_price` gives for that code on its own. */
  lemma ConvertAllMatchesConvertPrice(svc: Service, amount: Dec, base: string, codes: seq<string>, now: int, provider: Provider)
    requires Fresh(svc.cache, CacheKey(base), now)
    requires ConvertAll(svc, amount, base, codes, now, provider).result.Success?
    ensures EachAsConvertPrice(svc, amount, base, codes, ConvertAll(svc, amount, base, codes, now, provider).result.value, now, provider)
  {
    ConvertAllEntries(svc, amount, base, codes, now, provider);
    var infos := ConvertAll(svc, amount, base, codes, now, provider).result.value;
    forall i | 0 <= i < |codes|
      ensures ConvertPrice(svc, amount, base, codes[i], now, provider).result == Success(infos[i])
    {
      ConvertPriceFromCache(svc, amount, base, codes[i], now, provider);
    }
  }

  /** Entry `i` of `infos` is what `convert_price` into `codes[i]` gives on its own. */
  predicate EachAsConvertPrice(svc: Service, amount: Dec, base: string, codes: seq<string>, infos: seq<PriceInfo>, now: int, provider: Provider)
  {
    && |infos| == |codes|
    && forall i :: 0 <= i < |codes| ==> ConvertPrice(svc, amount, base, codes[i], now, provider).result == Success(infos[i])
  }

  /** `get_all_conversions` from a base with fresh cached rates: no request,
      success exactly when the cached table covers the registry, and then
      each entry is `convert_price` into its registry currency. Otherwise the error names the first registry code the table lacks. */
  lemma GetAllConversionsFromCache(svc: Service, amount: Dec, base: string, now: int, provider: Provider)
    requires Fresh(svc.cache, CacheKey(base), now)
    ensures var r := GetAllConversions(svc, amount, base, now, provider);
            && r.svc == svc
            && (r.result.Success? <==> forall i :: 0 <= i < |Currencies.Registry| ==> Covered(svc, base, Currencies.Registry[i].code))
            && (r.result.Success? ==> EachAsConvertPrice(svc, amount, base, Currencies.Codes(), r.result.value, now, provider))
            && (r.result.Failure? ==>
                  exists k :: FirstMissing(svc, base, Currencies.Codes(), k) && r.result.error == UnsupportedCurrency(Currencies.Registry[k].code))
  {
    var codes := Currencies.Codes();
    var r := GetAllConversions(svc, amount, base, now, provider);
    ConvertAllFromCache(svc, amount, base, codes, now, provider);
    if r.result.Success? {
      ConvertAllMatchesConvertPrice(svc, amount, base, codes, now, provider);
    } else {
      ConvertAllFirstMissing(svc, amount, base, codes, now, provider);
    }
  }

  /** `format_price(amount, code)`: the symbol (the code itself when unknown),
      a space, and the amount as `,.2f`. */
  function FormatPrice(amount: Dec, code: string): (s: string)
    ensures var symbol := Currencies.SymbolOr(code, code);
            && |s| > |symbol|
            && s[..|symbol| + 1] == symbol + " "
            && ParseFixed2(s[|symbol| + 1..]) == Some(Quantize2(amount).mant)
    ensures !Currencies.Supported(code) ==> |s| > |code| && s[..|code| + 1] == code + " "
  {
    var symbol := Currencies.SymbolOr(code, code);
    LabelledShowsAmount(symbol, amount);
    Labelled(symbol, amount)
  }

  /** The requesting user, as `get_user_currency` sees it. For a signed-in
      user, `preferred` is the code of their stored preference, absent when
      they have none. */
  datatype User = AnonymousUser | SignedInUser(preferred: Option<string>)

  /** `get_user_currency(user)`. */
  function GetUserCurrency(user: User): (code: string)
    ensures user.AnonymousUser? ==> code == Currencies.DefaultCurrency
    ensures user.SignedInUser? && user.preferred.None? ==> code == Currencies.DefaultCurrency
    ensures user.SignedInUser? && user.preferred.Some? ==> code == user.preferred.value
  {
    match user
    case AnonymousUser => "XOF"
    case SignedInUser(preferred) => preferred.GetOr("XOF")
  }

  // ---------------------------------------------------------------------
  // Properties across calls
  // ---------------------------------------------------------------------

  /** When the target is a registry currency, `convert_price`'s text is
      `format_price` of the converted amount. */
  lemma ConvertPriceFormatsLikeFormatPrice(svc: Service, price: Dec, from: string, to: string, now: int, provider: Provider)
    requires Currencies.Supported(to)
    requires ConvertPrice(svc, price, from, to, now, provider).result.Success?
    ensures var info := ConvertPrice(svc, price, from, to, now, provider).result.value;
            info.formatted == FormatPrice(info.amount, to)
  {
  }

  /** With an unknown source and no live rates, every conversion to another
      currency fails, because the fallback table of an unknown base is empty. */
  lemma UnknownSourceOffline(svc: Service, amount: Dec, from: string, to: string, now: int, provider: Provider)
    requires !Currencies.Supported(from) && from != to
    requires !Fresh(svc.cache, CacheKey(from), now)
    requires provider(svc.requests).Unavailable?
    ensures Convert(svc, amount, from, to, now, provider).result == Failure(UnsupportedCurrency(to))
  {
  }

  /** With an unknown base and no live rates, the whole breakdown fails. */
  lemma UnknownBaseBreakdownOffline(svc: Service, amount: Dec, base: string, now: int, provider: Provider)
    requires !Currencies.Supported(base)
    requires !Fresh(svc.cache, CacheKey(base), now)
    requires provider(svc.requests).Unavailable?
    ensures GetAllConversions(svc, amount, base, now, provider).result.Failure?
  {
    Currencies.SupportedCodes(base);
    var codes := Currencies.Codes();
    assert codes[0] == "XOF";
    UnknownSourceOffline(svc, amount, base, "XOF", now, provider);
  }

  /** An unknown target is only detected after the rates were resolved, so on
      a cache miss the provider is asked first. */
  lemma UnknownTargetAsksProvider(svc: Service, amount: Dec, from: string, to: string, now: int, provider: Provider)
    requires from != to && !Currencies.Supported(to)
    requires Currencies.Supported(from)
    requires !Fresh(svc.cache, CacheKey(from), now)
    requires provider(svc.requests).Unavailable?
    ensures Convert(svc, amount, from, to, now, provider) == Step(Failure(UnsupportedCurrency(to)), svc.(requests := svc.requests + 1))
  {
    Currencies.SupportedCodes(from);
    Currencies.SupportedCodes(to);
  }

  // ---------------------------------------------------------------------
  // Worked examples on the fallback rates
  // ---------------------------------------------------------------------

  /** The provider is down and nothing fresh is cached for `base`. */
  predicate Offline(svc: Service, base: string, now: int, provider: Provider) {
    !Fresh(svc.cache, CacheKey(base), now) && provider(svc.requests).Unavailable?
  }

  lemma Digits32798()
    ensures NatDigits(32798) == "32798"
  {
    assert NatDigits(3) == "3";
    assert NatDigits(32) == "32";
    assert NatDigits(327) == "327";
    assert NatDigits(3279) == "3279";
  }

  lemma GroupThirtyTwoThousand()
    ensures Group("32798") == "32,798"
  {
    assert "32798"[..2] == "32" && "32798"[2..] == "798";
  }

  lemma FormatThirtyTwoThousand()
    ensures FormatFixed2(Dec(3279800, 2)) == Pointed("32,798", "00")
  {
    QuantizeKeepsTwoPlaces(Dec(3279800, 2));
    FormatFixed2Unsigned(Dec(3279800, 2), 32798, 0);
    Digits32798();
    GroupThirtyTwoThousand();
    assert TwoDigits(0) == "00";
  }

  lemma FiftyEurosConverted(svc: Service, now: int, provider: Provider)
    requires Offline(svc, "EUR", now, provider)
    ensures Convert(svc, Dec(50, 0), "EUR", "XOF", now, provider).result == Success(Dec(3279800, 2))
  {
  }

  lemma FiftyEurosInFranc(svc: Service, now: int, provider: Provider)
    requires Offline(svc, "EUR", now, provider)
    ensures ConvertPrice(svc, Dec(50, 0), "EUR", "XOF", now, provider).result
         == Success(PriceInfo(Dec(3279800, 2), "FCFA 32,798.00", "FCFA", "XOF"))
  {
    var amount := Dec(3279800, 2);
    FiftyEurosConverted(svc, now, provider);
    Currencies.Symbols();
    var info := ConvertPrice(svc, Dec(50, 0), "EUR", "XOF", now, provider).result.value;
    assert info == PriceInfo(amount, Labelled("FCFA", amount), "FCFA", "XOF");
    FrancLabel();
  }

  lemma FrancText()
    ensures "FCFA" + " " + Pointed("32,798", "00") == "FCFA 32,798.00"
  {
  }

  lemma FrancLabel()
    ensures Labelled("FCFA", Dec(3279800, 2)) == "FCFA 32,798.00"
  {
    FormatThirtyTwoThousand();
    FrancText();
  }

  lemma EuroCentsInDollars(svc: Service, now: int, provider: Provider)
    requires Offline(svc, "EUR", now, provider)
    ensures Convert(svc, Dec(1999, 2), "EUR", "USD", now, provider).result == Success(Dec(2179, 2))
  {
    assert RoundHalfEven(217891, 100) == 2179;
  }

  lemma ZeroEurosInFranc(svc: Service, now: int, provider: Provider)
    requires Offline(svc, "EUR", now, provider)
    ensures Convert(svc, Dec(0, 0), "EUR", "XOF", now, provider).result == Success(Dec(0, 2))
  {
  }

  /** 0.375 USD at 0.92 is exactly 0.345 EUR, halfway between two cents: the
      result is the even cent 0.34 (rounding half up would give 0.35). */
  lemma TieGoesToEvenCent(svc: Service, now: int, provider: Provider)
    requires Offline(svc, "USD", now, provider)
    ensures Mul(Dec(375, 3), Dec(92, 2)) == Dec(34500, 5)
    ensures Convert(svc, Dec(375, 3), "USD", "EUR", now, provider).result == Success(Dec(34, 2))
  {
    assert RoundHalfEven(34500, 1000) == 34;
  }

  /** Converting there and back does not come within a cent of the start:
      100 XOF gives 0.16 USD, which gives 99.20 XOF on the fallback rates. */
  lemma RoundTripDrifts(svc: Service, now: int, provider: Provider)
    requires !Fresh(svc.cache, CacheKey("XOF"), now) && !Fresh(svc.cache, CacheKey("USD"), now)
    requires provider(svc.requests).Unavailable? && provider(svc.requests + 1).Unavailable?
    ensures var there := Convert(svc, Dec(100, 0), "XOF", "USD", now, provider);
            && there.result == Success(Dec(16, 2))
            && Convert(there.svc, Dec(16, 2), "USD", "XOF", now, provider).result == Success(Dec(9920, 2))
  {
    HundredFrancsInDollars(svc, now, provider);
    SixteenCentsInFrancs(svc.(requests := svc.requests + 1), now, provider);
  }

  lemma HundredFrancsInDollars(svc: Service, now: int, provider: Provider)
    requires Offline(svc, "XOF", now, provider)
    ensures var there := Convert(svc, Dec(100, 0), "XOF", "USD", now, provider);
            there.result == Success(Dec(16, 2)) && there.svc == svc.(requests := svc.requests + 1)
  {
  }

  lemma SixteenCentsInFrancs(svc: Service, now: int, provider: Provider)
    requires Offline(svc, "USD", now, provider)
    ensures Convert(svc, Dec(16, 2), "USD", "XOF", now, provider).result == Success(Dec(9920, 2))
  {
    assert RoundHalfEven(99200, 10) == 9920;
  }
}
