/**
 * The two ways the storefront turns a Decimal into text: the `',.2f'` format
 * specification (comma thousands separators, exactly two places, half-even
 * rounding) used for every displayed price, and `str(Decimal)`, used when a
 * conversion fails and the raw amount is echoed back. Each has a reader that
 * recovers the number, and a lemma that reading undoes writing.
 */
module TextFormat {
  import opened Wrappers
  import opened Decimals

  predicate IsDigit(c: char) {
    '0' <= c <= '9'
  }

  predicate AllDigits(s: string) {
    forall i :: 0 <= i < |s| ==> IsDigit(s[i])
  }

  function DigitValue(c: char): nat
    requires IsDigit(c)
  {
    c as int - '0' as int
  }

  function DigitChar(d: nat): (c: char)
    requires d < 10
    ensures IsDigit(c) && DigitValue(c) == d
  {
    (48 + d) as char
  }

  /** The number a string of decimal digits denotes. */
  function DigitsValue(s: string): nat
    requires AllDigits(s)
    decreases |s|
  {
    if s == [] then 0 else DigitsValue(s[..|s| - 1]) * 10 + DigitValue(s[|s| - 1])
  }

  /** The decimal digits of `n`, most significant first, without leading zeros. */
  function NatDigits(n: nat): (s: string)
    ensures 1 <= |s| && AllDigits(s)
    ensures DigitsValue(s) == n
    ensures n > 0 ==> s[0] != '0'
    ensures |s| == 1 || s[0] != '0'
    decreases n
  {
    if n < 10 then [DigitChar(n)]
    else
      var s := NatDigits(n / 10) + [DigitChar(n % 10)];
      assert s[..|s| - 1] == NatDigits(n / 10);
      s
  }

  function Zeros(n: nat): (s: string)
    ensures |s| == n && AllDigits(s)
  {
    if n == 0 then [] else "0" + Zeros(n - 1)
  }

  lemma ShiftDigit(x: int, p: int, y: int, d: int)
    ensures (x * p + y) * 10 + d == x * (p * 10) + (y * 10 + d)
  {
  }

  lemma {:induction false} DigitsValueAppend(a: string, b: string)
    requires AllDigits(a) && AllDigits(b)
    ensures AllDigits(a + b)
    ensures DigitsValue(a + b) == DigitsValue(a) * Pow10(|b|) + DigitsValue(b)
    decreases |b|
  {
    var ab := a + b;
    if b == [] {
      assert ab == a;
    } else {
      var b' := b[..|b| - 1];
      var last := b[|b| - 1];
      assert ab[..|ab| - 1] == a + b';
      assert ab[|ab| - 1] == last;
      assert AllDigits(b');
      DigitsValueAppend(a, b');
      assert DigitsValue(ab) == DigitsValue(a + b') * 10 + DigitValue(last);
      assert DigitsValue(b) == DigitsValue(b') * 10 + DigitValue(last);
      assert Pow10(|b|) == Pow10(|b'|) * 10;
      ShiftDigit(DigitsValue(a), Pow10(|b'|), DigitsValue(b'), DigitValue(last));
    }
  }

  lemma {:induction false} DigitsValueZeros(n: nat)
    ensures DigitsValue(Zeros(n)) == 0
  {
    if n > 0 {
      DigitsValueZeros(n - 1);
      DigitsValueAppend("0", Zeros(n - 1));
      assert DigitsValue("0") == DigitsValue("0"[..0]) * 10 + 0;
    }
  }

  /** Leading zeros do not change the number a digit string denotes. */
  lemma LeadingZeros(n: nat, ds: string)
    requires AllDigits(ds)
    ensures AllDigits(Zeros(n) + ds)
    ensures DigitsValue(Zeros(n) + ds) == DigitsValue(ds)
  {
    DigitsValueAppend(Zeros(n), ds);
    DigitsValueZeros(n);
  }

  /** `ds` padded on the left with zeros to `width` digits. */
  function PadLeft(ds: string, width: nat): (f: string)
    requires AllDigits(ds) && |ds| <= width
    ensures |f| == width && AllDigits(f)
    ensures DigitsValue(f) == DigitsValue(ds)
  {
    LeadingZeros(width - |ds|, ds);
    Zeros(width - |ds|) + ds
  }

  /** `whole`, a decimal point, and `frac`. */
  function Pointed(whole: string, frac: string): string {
    whole + "." + frac
  }

  /** The pieces of `Pointed(whole, frac)` are found where they were put. */
  lemma PointedParts(whole: string, frac: string)
    requires 1 <= |whole|
    ensures var s := Pointed(whole, frac);
            && |s| == |whole| + 1 + |frac|
            && s[..|whole|] == whole
            && s[|whole|] == '.'
            && s[|whole| + 1..] == frac
            && s[0] == whole[0]
  {
    var s := Pointed(whole, frac);
    assert s[..|whole|] == whole;
    assert s[|whole| + 1..] == frac;
  }

  // ---------------------------------------------------------------------
  // Thousands separators
  // ---------------------------------------------------------------------

  /** `s` with every comma removed. */
  function StripCommas(s: string): string
    decreases |s|
  {
    if s == [] then []
    else (if s[0] == ',' then [] else [s[0]]) + StripCommas(s[1..])
  }

  lemma {:induction false} StripCommasAppend(a: string, b: string)
    ensures StripCommas(a + b) == StripCommas(a) + StripCommas(b)
    decreases |a|
  {
    if a == [] {
      assert a + b == b;
    } else {
      assert (a + b)[1..] == a[1..] + b;
      StripCommasAppend(a[1..], b);
    }
  }

  lemma {:induction false} StripCommasDigits(s: string)
    requires AllDigits(s)
    ensures StripCommas(s) == s
    decreases |s|
  {
    if s != [] {
      StripCommasDigits(s[1..]);
    }
  }

  /** The shape of the `,` option: one to three digits, then groups of a
      comma and exactly three digits. */
  predicate Grouped(s: string)
    decreases |s|
  {
    if |s| <= 3 then 1 <= |s| && AllDigits(s)
    else
      && |s| >= 5
      && s[|s| - 4] == ','
      && AllDigits(s[|s| - 3..])
      && Grouped(s[..|s| - 4])
  }

  /** A whole part as Python writes it: grouped, and without a leading zero
      unless it is the single digit `0`. */
  predicate WellGrouped(s: string) {
    Grouped(s) && (|s| == 1 || s[0] != '0')
  }

  /** A leading part, a comma and a block of three digits. */
  function Comma(pre: string, block: string): string {
    pre + "," + block
  }

  lemma CommaParts(pre: string, block: string)
    requires |block| == 3
    ensures var g := Comma(pre, block);
            && |g| == |pre| + 4
            && g[..|g| - 4] == pre
            && g[|g| - 4] == ','
            && g[|g| - 3..] == block
            && (|pre| > 0 ==> g[0] == pre[0])
  {
    var g := Comma(pre, block);
    assert g[..|g| - 4] == pre;
    assert g[|g| - 3..] == block;
  }

  /** A string of at least four characters with a comma fourth from the end
      is that comma between its two sides. */
  lemma CommaSplit(g: string)
    requires |g| >= 4 && g[|g| - 4] == ','
    ensures g == Comma(g[..|g| - 4], g[|g| - 3..])
  {
  }

  lemma StripComma(pre: string, block: string)
    requires AllDigits(block)
    ensures StripCommas(Comma(pre, block)) == StripCommas(pre) + block
  {
    StripCommasAppend(pre + ",", block);
    StripCommasAppend(pre, ",");
    StripCommasDigits(block);
    assert StripCommas(",") == [];
  }

  /** The last three characters of `a + b`, for `b` of length three. */
  lemma SplitLastThree(a: string, b: string)
    requires |b| == 3
    ensures var ab := a + b;
            ab[..|ab| - 3] == a && ab[|ab| - 3..] == b
  {
    var ab := a + b;
    assert ab[..|ab| - 3] == a;
    assert ab[|ab| - 3..] == b;
  }

  lemma {:induction false} GroupedDigits(s: string)
    requires Grouped(s)
    ensures AllDigits(StripCommas(s))
    ensures 1 <= |StripCommas(s)| && StripCommas(s)[0] == s[0]
    ensures IsDigit(s[0])
    ensures |StripCommas(s)| == 1 <==> |s| == 1
    decreases |s|
  {
    if |s| > 3 {
      var pre := s[..|s| - 4];
      var block := s[|s| - 3..];
      GroupedDigits(pre);
      CommaSplit(s);
      CommaParts(pre, block);
      StripComma(pre, block);
    } else {
      StripCommasDigits(s);
    }
  }

  /** Inserts a comma before every block of three digits counted from the right. */
  function Group(ds: string): (g: string)
    requires AllDigits(ds)
    ensures StripCommas(g) == ds
    ensures 1 <= |ds| ==> Grouped(g) && g[0] == ds[0]
    ensures (|g| == 1 <==> |ds| == 1)
    decreases |ds|
  {
    if |ds| <= 3 then
      StripCommasDigits(ds);
      ds
    else
      var pre := Group(ds[..|ds| - 3]);
      var block := ds[|ds| - 3..];
      StripComma(pre, block);
      CommaParts(pre, block);
      assert ds == ds[..|ds| - 3] + block;
      Comma(pre, block)
  }

  /** Digits without a leading zero, unless they are the single digit `0`. */
  predicate NoLeadingZero(ds: string) {
    1 <= |ds| && (|ds| == 1 || ds[0] != '0')
  }

  /** A grouped string is the grouping of its own digits: `Group` is the only
      way to write them. */
  lemma {:induction false} GroupUnique(g: string)
    requires Grouped(g)
    ensures AllDigits(StripCommas(g))
    ensures Group(StripCommas(g)) == g
    decreases |g|
  {
    GroupedDigits(g);
    if |g| <= 3 {
      StripCommasDigits(g);
    } else {
      var pre := g[..|g| - 4];
      var block := g[|g| - 3..];
      GroupedDigits(pre);
      GroupUnique(pre);
      CommaSplit(g);
      StripComma(pre, block);
      SplitLastThree(StripCommas(pre), block);
    }
  }

  lemma {:induction false} NoLeadingZeroPositive(ds: string)
    requires AllDigits(ds) && 1 <= |ds| && ds[0] != '0'
    ensures DigitsValue(ds) >= 1
    decreases |ds|
  {
    if |ds| > 1 {
      var init := ds[..|ds| - 1];
      assert init[0] == ds[0];
      NoLeadingZeroPositive(init);
    }
  }

  /** Digits without a leading zero are the digits `NatDigits` writes for
      their value. */
  lemma {:induction false} NatDigitsUnique(ds: string)
    requires AllDigits(ds) && NoLeadingZero(ds)
    ensures NatDigits(DigitsValue(ds)) == ds
    decreases |ds|
  {
    var n := DigitsValue(ds);
    if |ds| == 1 {
      assert ds[..|ds| - 1] == [];
      assert n == DigitsValue(ds[..|ds| - 1]) * 10 + DigitValue(ds[|ds| - 1]);
      assert DigitChar(n) == ds[0];
    } else {
      var init := ds[..|ds| - 1];
      var d := DigitValue(ds[|ds| - 1]);
      assert init[0] == ds[0];
      NoLeadingZeroPositive(init);
      NatDigitsUnique(init);
      assert n == DigitsValue(init) * 10 + d;
      Tens(n, DigitsValue(init), d);
      assert DigitChar(d) == ds[|ds| - 1];
      assert ds == init + [ds[|ds| - 1]];
    }
  }

  lemma Tens(n: int, q: nat, d: nat)
    requires n == q * 10 + d && d < 10 && q >= 1
    ensures n >= 10 && n / 10 == q && n % 10 == d
  {
  }

  // ---------------------------------------------------------------------
  // format(x, ',.2f')
  // ---------------------------------------------------------------------

  /** Python's `format(x, ',.2f')` for a Decimal `x`: the sign of `x`, then the
      half-even rounding of `|x|` to hundredths with comma-grouped whole part. */
  function FormatFixed2(x: Dec): string {
    (if x.mant < 0 then "-" else "") + CentsText(Abs(Quantize2(x).mant))
  }

  /** `c` hundredths without a sign: the comma-grouped whole part, a point
      and two digits. */
  function CentsText(c: nat): string {
    Pointed(Group(NatDigits(c / 100)), TwoDigits(c % 100))
  }

  /** Reads text of the shape `format(x, ',.2f')` writes, as a number of
      hundredths. */
  function ParseFixed2(s: string): Option<int> {
    if |s| > 0 && s[0] == '-' then
      match ParseHundredths(s[1..])
      case Some(v) => Some(-(v as int))
      case None => None
    else
      match ParseHundredths(s)
      case Some(v) => Some(v as int)
      case None => None
  }

  /** Reads unsigned `,.2f` text: grouped digits, a point and two digits. */
  function ParseHundredths(body: string): Option<nat> {
    if |body| < 4 || body[|body| - 3] != '.' then None
    else
      var whole := body[..|body| - 3];
      var frac := body[|body| - 2..];
      if !WellGrouped(whole) || !AllDigits(frac) then None
      else
        GroupedDigits(whole);
        Some(DigitsValue(StripCommas(whole)) * 100 + DigitsValue(frac))
  }

  /** `n` as exactly two digits, with a leading zero below ten. */
  function TwoDigits(n: nat): (t: string)
    requires n < 100
    ensures |t| == 2 && AllDigits(t) && DigitsValue(t) == n
  {
    var t := [DigitChar(n / 10), DigitChar(n % 10)];
    assert t[..1][..0] == [];
    assert DigitsValue(t[..1]) == DigitsValue(t[..1][..0]) * 10 + n / 10;
    t
  }

  lemma Hundreds(c: int, whole: nat, cents: nat)
    requires c == whole * 100 + cents && cents < 100
    ensures c / 100 == whole && c % 100 == cents
  {
  }

  /** The text of a non-negative amount is its grouped whole part, a point
      and its two decimals. */
  lemma FormatFixed2Unsigned(x: Dec, whole: nat, cents: nat)
    requires x.mant >= 0 && Quantize2(x).mant == whole * 100 + cents && cents < 100
    ensures FormatFixed2(x) == Pointed(Group(NatDigits(whole)), TwoDigits(cents))
  {
    var p := Pointed(Group(NatDigits(whole)), TwoDigits(cents));
    QuantizeSign(x);
    Hundreds(Quantize2(x).mant, whole, cents);
    assert "" + p == p;
  }

  /** The pieces of `,.2f` text, located from its end as the reader does. */
  lemma HundredthsParts(g: string, t: string)
    requires 1 <= |g| && |t| == 2
    ensures var s := Pointed(g, t);
            && |s| >= 4
            && s[..|s| - 3] == g
            && s[|s| - 3] == '.'
            && s[|s| - 2..] == t
            && s[0] == g[0]
  {
    PointedParts(g, t);
  }

  /** Reading unsigned `,.2f` text from its pieces. */
  lemma ParseHundredthsAt(body: string, g: string, t: string)
    requires |body| >= 4 && body[|body| - 3] == '.'
    requires body[..|body| - 3] == g && WellGrouped(g)
    requires body[|body| - 2..] == t && AllDigits(t)
    ensures AllDigits(StripCommas(g))
    ensures ParseHundredths(body) == Some(DigitsValue(StripCommas(g)) * 100 + DigitsValue(t))
  {
    GroupedDigits(g);
  }

  /** Reading a well-formed unsigned body: grouped digits, a point, two digits. */
  lemma ParseHundredthsBody(g: string, t: string)
    requires WellGrouped(g) && |t| == 2 && AllDigits(t)
    ensures AllDigits(StripCommas(g))
    ensures ParseHundredths(Pointed(g, t)) == Some(DigitsValue(StripCommas(g)) * 100 + DigitsValue(t))
    ensures Pointed(g, t)[0] == g[0] && IsDigit(g[0])
  {
    GroupedDigits(g);
    HundredthsParts(g, t);
    ParseHundredthsAt(Pointed(g, t), g, t);
  }

  lemma ParseFixed2Signed(sign: string, body: string)
    requires sign == "" || sign == "-"
    requires |body| > 0 && IsDigit(body[0])
    requires ParseHundredths(body).Some?
    ensures var v := ParseHundredths(body).value as int;
            ParseFixed2(sign + body) == Some(if sign == "-" then -v else v)
  {
    if sign == "-" {
      assert (sign + body)[1..] == body;
    } else {
      assert sign + body == body;
    }
  }

  /** Reading signed `,.2f` text whose pieces denote `v` hundredths. */
  lemma ReadFixed2(sign: string, g: string, t: string, v: nat)
    requires sign == "" || sign == "-"
    requires WellGrouped(g) && |t| == 2 && AllDigits(t)
    requires AllDigits(StripCommas(g)) && v == DigitsValue(StripCommas(g)) * 100 + DigitsValue(t)
    ensures ParseFixed2(sign + Pointed(g, t)) == Some(if sign == "-" then -(v as int) else v as int)
  {
    ParseHundredthsBody(g, t);
    ParseFixed2Signed(sign, Pointed(g, t));
  }

  /** Reading the text of `c` hundredths, with or without a minus sign. */
  lemma ReadCents(sign: string, c: nat)
    requires sign == "" || sign == "-"
    ensures ParseFixed2(sign + CentsText(c)) == Some(if sign == "-" then -(c as int) else c as int)
  {
    var q, r := c / 100, c % 100;
    var g, t := Group(NatDigits(q)), TwoDigits(r);
    assert StripCommas(g) == NatDigits(q);
    assert DigitsValue(StripCommas(g)) == q;
    ReadFixed2(sign, g, t, c);
  }

  /** The formatted text shows exactly the half-even rounding of `x` to
      hundredths. */
  lemma FormatFixed2RoundTrip(x: Dec)
    ensures ParseFixed2(FormatFixed2(x)) == Some(Quantize2(x).mant)
  {
    var m := Quantize2(x).mant;
    var sign := if x.mant < 0 then "-" else "";
    QuantizeSign(x);
    ReadCents(sign, Abs(m));
    assert (if sign == "-" then -(Abs(m) as int) else Abs(m) as int) == m;
  }

  lemma {:induction false} TwoDigitsUnique(t: string)
    requires |t| == 2 && AllDigits(t)
    ensures DigitsValue(t) < 100 && TwoDigits(DigitsValue(t)) == t
  {
    var a, b := DigitValue(t[0]), DigitValue(t[1]);
    assert t[..1][..0] == [];
    assert DigitsValue(t[..1]) == a;
    assert DigitsValue(t) == DigitsValue(t[..1]) * 10 + b;
    assert DigitChar(a) == t[0] && DigitChar(b) == t[1];
  }

  /** A well-grouped whole part and two digits are the text of the
      hundredths `c` they denote. */
  lemma CentsTextUnique(whole: string, frac: string, c: nat)
    requires WellGrouped(whole) && |frac| == 2 && AllDigits(frac)
    requires AllDigits(StripCommas(whole))
    requires c == DigitsValue(StripCommas(whole)) * 100 + DigitsValue(frac)
    ensures Pointed(whole, frac) == CentsText(c)
  {
    GroupUnique(whole);
    var ds := StripCommas(whole);
    NatDigitsUnique(ds);
    TwoDigitsUnique(frac);
    CentsTextOf(c, DigitsValue(ds), DigitsValue(frac), whole, frac);
  }

  /** The text of `c` hundredths is built from the text of its whole part
      `q` and of its cents `r`. */
  lemma CentsTextOf(c: nat, q: nat, r: nat, whole: string, frac: string)
    requires c == q * 100 + r && r < 100
    requires Group(NatDigits(q)) == whole && TwoDigits(r) == frac
    ensures Pointed(whole, frac) == CentsText(c)
  {
    Hundreds(c, q, r);
  }

  /** Text with a point third from the end is that point between its sides. */
  lemma PointSplit(body: string)
    requires |body| >= 4 && body[|body| - 3] == '.'
    ensures body == Pointed(body[..|body| - 3], body[|body| - 2..])
  {
  }

  /** Every body `ParseHundredths` accepts is the one `,.2f` writes for the
      number it reads: no padding, no stray commas. */
  lemma ParseHundredthsCanonical(body: string)
    requires ParseHundredths(body).Some?
    ensures body == CentsText(ParseHundredths(body).value)
  {
    PointSplit(body);
    var whole := body[..|body| - 3];
    GroupedDigits(whole);
    CentsTextUnique(whole, body[|body| - 2..], ParseHundredths(body).value);
  }

  /** The text of a two-place amount, in cents. */
  lemma FormatCents(v: int)
    ensures FormatFixed2(Dec(v, 2)) == (if v < 0 then "-" else "") + CentsText(Abs(v))
  {
    QuantizeKeepsTwoPlaces(Dec(v, 2));
  }

  /** A negative amount that rounds to zero keeps its sign: `-0.00`. */
  lemma NegativeZeroText()
    ensures Quantize2(Dec(-1, 3)).mant == 0
    ensures FormatFixed2(Dec(-1, 3)) == "-" + CentsText(0)
  {
    assert Pow10(1) == 10;
    assert RoundHalfEven(-1, 10) == 0;
    assert Quantize2(Dec(-1, 3)) == Dec(0, 2);
  }

  /** Unsigned text the reader accepts is the text of the hundredths `v`
      it reads. */
  lemma ReadUnsignedCanonical(s: string, v: int)
    requires ParseHundredths(s).Some? && v == ParseHundredths(s).value as int
    ensures s == FormatFixed2(Dec(v, 2))
  {
    var u := ParseHundredths(s).value;
    ParseHundredthsCanonical(s);
    FormatCents(v);
    assert Abs(v) == u;
    assert "" + s == s;
  }

  /** A minus sign before a body the reader accepts gives the text of the
      negated hundredths `v`, or, for `-0.00`, of a small negative amount. */
  lemma NegativeCanonical(s: string, v: int)
    requires |s| > 0 && s[0] == '-' && ParseHundredths(s[1..]).Some?
    requires v == -(ParseHundredths(s[1..]).value as int)
    ensures s == FormatFixed2(Dec(v, 2)) || (v == 0 && s == FormatFixed2(Dec(-1, 3)))
  {
    var body := s[1..];
    var u := ParseHundredths(body).value;
    assert s == "-" + body;
    ParseHundredthsCanonical(body);
    if u == 0 {
      assert v == 0;
      NegativeZeroText();
      assert CentsText(u) == CentsText(0);
    } else {
      FormatCents(v);
      assert Abs(v) == u;
    }
  }

  /** `ParseFixed2` accepts nothing but the texts `,.2f` writes: whatever it
      reads as `v` is the text of `v` hundredths, or `-0.00`, the text of a
      small negative amount. */
  lemma ParseFixed2Canonical(s: string)
    requires ParseFixed2(s).Some?
    ensures var v := ParseFixed2(s).value;
            s == FormatFixed2(Dec(v, 2)) || (v == 0 && s == FormatFixed2(Dec(-1, 3)))
  {
    var v := ParseFixed2(s).value;
    if |s| > 0 && s[0] == '-' {
      NegativeCanonical(s, v);
    } else {
      ReadUnsignedCanonical(s, v);
    }
  }

  // ---------------------------------------------------------------------
  // str(Decimal)
  // ---------------------------------------------------------------------

  /** Python's `str(x)` for a Decimal `x` (`Decimal.__str__`): plain notation
      unless the number has more than five zeros after the point before its
      first digit, in which case scientific notation with one digit before the
      point. */
  function DecToString(x: Dec): string {
    var ds := NatDigits(Abs(x.mant));
    var sign := if x.mant < 0 then "-" else "";
    var leftdigits := |ds| - x.scale;
    if leftdigits > -6 then
      if leftdigits <= 0 then sign + Pointed("0", PadLeft(ds, x.scale))
      else if x.scale == 0 then sign + ds
      else sign + Pointed(ds[..leftdigits], ds[leftdigits..])
    else
      var lead := if |ds| == 1 then ds else Pointed(ds[..1], ds[1..]);
      sign + lead + "E-" + NatDigits(1 - leftdigits)
  }

  /** The index of the first '.' in `s`, or `|s|` when there is none. */
  function PointIndex(s: string): (i: nat)
    ensures i <= |s|
    decreases |s|
  {
    if s == [] || s[0] == '.' then 0 else 1 + PointIndex(s[1..])
  }

  /** A digit string has no point. */
  lemma {:induction false} PointIndexNone(a: string)
    requires AllDigits(a)
    ensures PointIndex(a) == |a|
    decreases |a|
  {
    if a != [] {
      PointIndexNone(a[1..]);
    }
  }

  /** The first point after a digit string is the one `Pointed` puts there. */
  lemma {:induction false} PointIndexDigits(a: string, b: string)
    requires AllDigits(a)
    ensures PointIndex(Pointed(a, b)) == |a|
    decreases |a|
  {
    if a != [] {
      assert Pointed(a, b)[1..] == Pointed(a[1..], b);
      PointIndexDigits(a[1..], b);
    }
  }

  /** Reads a Decimal written in plain notation: an optional minus sign, digits,
      and optionally a point followed by digits. The scale is the number of
      digits after the point, so trailing zeros are kept. */
  function ParsePlain(s: string): Option<Dec> {
    if |s| > 0 && s[0] == '-' then
      match ParsePlainUnsigned(s[1..])
      case Some(d) => Some(Dec(-d.mant, d.scale))
      case None => None
    else ParsePlainUnsigned(s)
  }

  /** Unsigned plain text, cut at its first point. */
  function ParsePlainUnsigned(body: string): Option<Dec> {
    var i := PointIndex(body);
    if i < |body| then ParsePlainParts(body[..i], body[i + 1..], true)
    else ParsePlainParts(body, "", false)
  }

  /** The digits before and after the point, read as one digit string; a
      point needs digits on both sides. */
  function ParsePlainParts(whole: string, frac: string, pointed: bool): Option<Dec> {
    if whole == [] || !AllDigits(whole) || !AllDigits(frac) || (pointed && frac == []) then None
    else Some(Dec(DigitsValue(whole) * Pow10(|frac|) + DigitsValue(frac), |frac|))
  }

  lemma ParsePlainSigned(sign: string, body: string, m: nat, scale: nat)
    requires sign == "" || sign == "-"
    requires |body| > 0 && IsDigit(body[0])
    requires ParsePlainUnsigned(body) == Some(Dec(m, scale))
    ensures ParsePlain(sign + body) == Some(Dec(if sign == "-" then -(m as int) else m, scale))
  {
    if sign == "-" {
      assert (sign + body)[1..] == body;
    } else {
      assert sign + body == body;
    }
  }

  /** Reading unsigned plain text from its pieces. */
  lemma ParsePlainAt(body: string, w: string, f: string)
    requires PointIndex(body) == |w| < |body|
    requires body[..|w|] == w && body[|w| + 1..] == f
    requires 1 <= |w| && AllDigits(w) && 1 <= |f| && AllDigits(f)
    ensures ParsePlainUnsigned(body) == Some(Dec(DigitsValue(w) * Pow10(|f|) + DigitsValue(f), |f|))
  {
    ParsePlainDigits(w, f);
    assert ParsePlainUnsigned(body) == ParsePlainParts(w, f, true);
  }

  lemma ParsePlainDigits(w: string, f: string)
    requires 1 <= |w| && AllDigits(w) && 1 <= |f| && AllDigits(f)
    ensures ParsePlainParts(w, f, true) == Some(Dec(DigitsValue(w) * Pow10(|f|) + DigitsValue(f), |f|))
  {
  }

  /** Reading digits, a point and more digits. */
  lemma ParsePlainPoint(whole: string, frac: string)
    requires 1 <= |whole| && AllDigits(whole)
    requires 1 <= |frac| && AllDigits(frac)
    ensures ParsePlainUnsigned(Pointed(whole, frac))
         == Some(Dec(DigitsValue(whole) * Pow10(|frac|) + DigitsValue(frac), |frac|))
    ensures Pointed(whole, frac)[0] == whole[0]
  {
    PointedParts(whole, frac);
    PointIndexDigits(whole, frac);
    ParsePlainAt(Pointed(whole, frac), whole, frac);
  }

  lemma DigitsValueZero()
    ensures AllDigits("0") && DigitsValue("0") == 0
  {
    assert "0"[..0] == [];
  }

  /** Reading a zero whole part, a point and digits. */
  lemma ParsePlainSmall(frac: string, m: nat)
    requires 1 <= |frac| && AllDigits(frac) && DigitsValue(frac) == m
    ensures ParsePlainUnsigned(Pointed("0", frac)) == Some(Dec(m, |frac|))
    ensures Pointed("0", frac)[0] == '0'
  {
    DigitsValueZero();
    ParsePlainPoint("0", frac);
  }

  lemma ParsePlainWhole(ds: string)
    requires 1 <= |ds| && AllDigits(ds)
    ensures ParsePlainUnsigned(ds) == Some(Dec(DigitsValue(ds), 0))
  {
    PointIndexNone(ds);
    assert DigitsValue(ds) * Pow10(0) + DigitsValue("") == DigitsValue(ds);
  }

  /** Cutting a digit string in two: both sides are digit strings, and the
      left side counts in units of the right side's length. */
  lemma CutDigits(ds: string, left: nat)
    requires left <= |ds| && AllDigits(ds)
    ensures AllDigits(ds[..left]) && AllDigits(ds[left..])
    ensures DigitsValue(ds) == DigitsValue(ds[..left]) * Pow10(|ds[left..]|) + DigitsValue(ds[left..])
  {
    var w, f := ds[..left], ds[left..];
    assert forall i :: 0 <= i < left ==> w[i] == ds[i];
    assert forall i :: 0 <= i < |ds| - left ==> f[i] == ds[left + i];
    DigitsValueAppend(w, f);
    assert w + f == ds;
  }

  /** Below one, `str` writes `0.` and the digits of the mantissa padded to
      the scale. */
  lemma SmallShape(x: Dec)
    requires -6 < |NatDigits(Abs(x.mant))| - x.scale <= 0
    ensures var ds := NatDigits(Abs(x.mant));
            && |ds| <= x.scale
            && DecToString(x) == (if x.mant < 0 then "-" else "") + Pointed("0", PadLeft(ds, x.scale))
  {
  }

  /** Reading `0.` and the digits of `|x|`, with the sign of `x`. */
  lemma ReadSmall(x: Dec, frac: string)
    requires 1 <= |frac| && AllDigits(frac) && DigitsValue(frac) == Abs(x.mant) && |frac| == x.scale
    ensures ParsePlain((if x.mant < 0 then "-" else "") + Pointed("0", frac)) == Some(x)
  {
    ParsePlainSmall(frac, Abs(x.mant));
    ParsePlainSigned(if x.mant < 0 then "-" else "", Pointed("0", frac), Abs(x.mant), |frac|);
  }

  lemma RoundTripSmall(x: Dec)
    requires -6 < |NatDigits(Abs(x.mant))| - x.scale <= 0
    ensures ParsePlain(DecToString(x)) == Some(x)
  {
    SmallShape(x);
    ReadSmall(x, PadLeft(NatDigits(Abs(x.mant)), x.scale));
  }

  lemma RoundTripWhole(x: Dec)
    requires x.scale == 0
    ensures ParsePlain(DecToString(x)) == Some(x)
  {
    var ds := NatDigits(Abs(x.mant));
    var sign := if x.mant < 0 then "-" else "";
    assert DecToString(x) == sign + ds;
    ParsePlainWhole(ds);
    ParsePlainSigned(sign, ds, Abs(x.mant), x.scale);
  }

  /** Reading a signed number written as digits, a point and digits. */
  lemma RoundTripPointed(sign: string, w: string, f: string, m: nat)
    requires sign == "" || sign == "-"
    requires 1 <= |w| && AllDigits(w) && 1 <= |f| && AllDigits(f)
    requires m == DigitsValue(w) * Pow10(|f|) + DigitsValue(f)
    ensures ParsePlain(sign + Pointed(w, f)) == Some(Dec(if sign == "-" then -(m as int) else m, |f|))
  {
    ParsePlainPoint(w, f);
    ParsePlainSigned(sign, Pointed(w, f), m, |f|);
  }

  lemma SplitShape(x: Dec)
    requires 0 < x.scale < |NatDigits(Abs(x.mant))|
    ensures var ds := NatDigits(Abs(x.mant));
            var left := |ds| - x.scale;
            DecToString(x) == (if x.mant < 0 then "-" else "") + Pointed(ds[..left], ds[left..])
  {
  }

  /** Reading digits, a point and `x.scale` digits, with the sign of `x`. */
  lemma ReadSplit(x: Dec, w: string, f: string)
    requires 1 <= |w| && AllDigits(w) && 1 <= |f| && AllDigits(f) && |f| == x.scale
    requires DigitsValue(w) * Pow10(|f|) + DigitsValue(f) == Abs(x.mant)
    ensures ParsePlain((if x.mant < 0 then "-" else "") + Pointed(w, f)) == Some(x)
  {
    RoundTripPointed(if x.mant < 0 then "-" else "", w, f, Abs(x.mant));
  }

  lemma RoundTripSplit(x: Dec)
    requires 0 < x.scale < |NatDigits(Abs(x.mant))|
    ensures ParsePlain(DecToString(x)) == Some(x)
  {
    var ds := NatDigits(Abs(x.mant));
    var left := |ds| - x.scale;
    SplitShape(x);
    CutDigits(ds, left);
    ReadSplit(x, ds[..left], ds[left..]);
  }

  /** In the plain-notation range, `str` loses nothing: the text reads back as
      the very same Decimal, scale included. */
  lemma DecToStringRoundTrip(x: Dec)
    requires |NatDigits(Abs(x.mant))| - x.scale > -6
    ensures ParsePlain(DecToString(x)) == Some(x)
  {
    var n := |NatDigits(Abs(x.mant))|;
    if n - x.scale <= 0 {
      RoundTripSmall(x);
    } else if x.scale == 0 {
      RoundTripWhole(x);
    } else {
      RoundTripSplit(x);
    }
  }
}
