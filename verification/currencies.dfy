/**
 * The closed registry of supported currencies (`SUPPORTED_CURRENCIES` of
 * `CurrencyConverter`), in the dict's insertion order.
 */
module Currencies {
  import opened Wrappers

  datatype CurrencyInfo = CurrencyInfo(name: string, symbol: string, flag: string, isDefault: bool)

  datatype Entry = Entry(code: string, info: CurrencyInfo)

  /** The currency a visitor sees when nothing else is known. */
  const DefaultCurrency: string := "XOF"

  const Registry: seq<Entry> := [
    Entry("XOF", CurrencyInfo("Franc CFA", "FCFA", "\U{1F1F9}\U{1F1EC}", true)),
    Entry("USD", CurrencyInfo("Dollar am\U{E9}ricain", "$", "\U{1F1FA}\U{1F1F8}", false)),
    Entry("EUR", CurrencyInfo("Euro", "\U{20AC}", "\U{1F1EA}\U{1F1FA}", false))
  ]

  /** The registry's keys, in order. */
  function Codes(): (cs: seq<string>)
    ensures |cs| == |Registry|
    ensures forall i :: 0 <= i < |cs| ==> cs[i] == Registry[i].code
  {
    seq(|Registry|, i requires 0 <= i < |Registry| => Registry[i].code)
  }

  function Find(entries: seq<Entry>, code: string): (r: Option<CurrencyInfo>)
    ensures r.Some? <==> exists i :: 0 <= i < |entries| && entries[i].code == code
    ensures r.Some? ==> exists i :: 0 <= i < |entries| && entries[i] == Entry(code, r.value)
  {
    if entries == [] then None
    else if entries[0].code == code then Some(entries[0].info)
    else
      var r := Find(entries[1..], code);
      assert forall i :: 0 < i < |entries| ==> entries[i] == entries[1..][i - 1];
      r
  }

  /** `SUPPORTED_CURRENCIES.get(code)`. */
  function Lookup(code: string): Option<CurrencyInfo> {
    Find(Registry, code)
  }

  predicate Supported(code: string) {
    Lookup(code).Some?
  }

  /** `SUPPORTED_CURRENCIES.get(code, {}).get('symbol', default)`. */
  function SymbolOr(code: string, default: string): (s: string)
    ensures Supported(code) ==> exists i :: 0 <= i < |Registry| && Registry[i].code == code && Registry[i].info.symbol == s
    ensures !Supported(code) ==> s == default
  {
    match Lookup(code)
    case Some(info) => info.symbol
    case None => default
  }

  /** Exactly three codes are supported: XOF, USD and EUR. */
  lemma SupportedCodes(code: string)
    ensures Supported(code) <==> code in {"XOF", "USD", "EUR"}
  {
    assert Registry[0].code == "XOF" && Registry[1].code == "USD" && Registry[2].code == "EUR";
  }

  /** The registry has no duplicate keys, and exactly one entry, XOF, is the
      default. */
  lemma RegistryWellFormed()
    ensures forall i, j :: 0 <= i < j < |Registry| ==> Registry[i].code != Registry[j].code
    ensures forall i :: 0 <= i < |Registry| ==> (Registry[i].info.isDefault <==> Registry[i].code == DefaultCurrency)
    ensures Supported(DefaultCurrency)
  {
  }

  lemma Symbols()
    ensures SymbolOr("XOF", "") == "FCFA"
    ensures SymbolOr("USD", "") == "$"
    ensures SymbolOr("EUR", "") == "\U{20AC}"
  {
  }
}
