/** Decimal amounts of seven places, read into whole stroops without rounding. */
module Amount {
  import opened Wrappers
  import opened Bytes
  import opened Digits

  const STROOPS_PER_UNIT: nat := 10_000_000
  const DECIMALS: nat := 7

  // --- text -------------------------------------------------------------------------------------

  /** Unicode `White_Space`, which `str::trim` removes. */
  predicate IsWhitespace(c: char) {
    || '\U{0009}' <= c <= '\U{000D}' || c == ' ' || c == '\U{0085}' || c == '\U{00A0}'
    || c == '\U{1680}' || '\U{2000}' <= c <= '\U{200A}' || c == '\U{2028}' || c == '\U{2029}'
    || c == '\U{202F}' || c == '\U{205F}' || c == '\U{3000}'
  }

  /** The twenty-five characters with that property. */
  lemma WhitespaceIs(c: char)
    ensures var listed :=
      "\U{0009}\U{000A}\U{000B}\U{000C}\U{000D}\U{0020}\U{0085}\U{00A0}\U{1680}"
      + "\U{2000}\U{2001}\U{2002}\U{2003}\U{2004}\U{2005}\U{2006}\U{2007}\U{2008}\U{2009}\U{200A}"
      + "\U{2028}\U{2029}\U{202F}\U{205F}\U{3000}";
      IsWhitespace(c) <==> c in listed
  {
  }

  function Trim(s: string): string {
    if s != "" && IsWhitespace(s[0]) then Trim(s[1..])
    else if s != "" && IsWhitespace(s[|s| - 1]) then Trim(s[..|s| - 1])
    else s
  }

  predicate AllWhitespace(s: string) {
    forall i :: 0 <= i < |s| ==> IsWhitespace(s[i])
  }

  /** Trimming takes off whitespace only, and all of it that stands at either end. */
  lemma {:induction false} TrimIs(s: string) returns (left: string, right: string)
    ensures s == left + Trim(s) + right && AllWhitespace(left) && AllWhitespace(right)
    decreases |s|
  {
    left, right := "", "";
    if s != "" && IsWhitespace(s[0]) {
      var l, r := TrimIs(s[1..]);
      Regroup([s[0]], l, Trim(s), r, "");
      left, right := [s[0]] + l, r;
    } else if s != "" && IsWhitespace(s[|s| - 1]) {
      var l, r := TrimIs(s[..|s| - 1]);
      Regroup("", l, Trim(s), r, [s[|s| - 1]]);
      left, right := l, r + [s[|s| - 1]];
    }
  }

  lemma Regroup(a: string, left: string, text: string, right: string, b: string)
    ensures a + (left + text + right) + b == (a + left) + text + (right + b)
  {
  }

  lemma {:induction false} TrimmedEnds(s: string)
    ensures var t := Trim(s); t != "" ==> !IsWhitespace(t[0]) && !IsWhitespace(t[|t| - 1])
    decreases |s|
  {
    if s != "" && IsWhitespace(s[0]) {
      TrimmedEnds(s[1..]);
    } else if s != "" && IsWhitespace(s[|s| - 1]) {
      TrimmedEnds(s[..|s| - 1]);
    }
  }

  /** `split_once('.')`, with an empty second part when there is no point. */
  function SplitOnce(s: string): (string, string) {
    if s == "" then ("", "")
    else if s[0] == '.' then ("", s[1..])
    else
      var (whole, frac) := SplitOnce(s[1..]);
      ([s[0]] + whole, frac)
  }

  lemma {:induction false} SplitAtPoint(whole: string, rest: string)
    requires '.' !in whole && (rest == "" || rest[0] == '.')
    ensures SplitOnce(whole + rest) == (whole, if rest == "" then "" else rest[1..])
  {
    if whole == "" {
      assert whole + rest == rest;
    } else {
      assert (whole + rest)[1..] == whole[1..] + rest;
      SplitAtPoint(whole[1..], rest);
      assert (whole + rest)[0] == whole[0];
      assert [whole[0]] + whole[1..] == whole;
    }
  }

  lemma {:induction false} SplitRejoins(s: string)
    ensures var (whole, frac) := SplitOnce(s);
      s == whole + "." + frac || (s == whole && frac == "")
  {
    if s != "" && s[0] != '.' {
      SplitRejoins(s[1..]);
      var (whole, frac) := SplitOnce(s[1..]);
      assert s == [s[0]] + s[1..];
      assert s == [s[0]] + whole + "." + frac || (s == [s[0]] + whole && frac == "");
    }
  }

  // --- what an amount means -----------------------------------------------------------------------

  /** `text` is digits, optionally followed by a point and at most seven more digits. */
  ghost predicate Reads(text: string, whole: string, frac: string) {
    && whole != "" && AllDigits(whole) && AllDigits(frac) && |frac| <= DECIMALS
    && (text == whole + "." + frac || (text == whole && frac == ""))
  }

  /** The number written, as a rational. */
  ghost function Written(whole: string, frac: string): real
    requires AllDigits(whole) && AllDigits(frac)
  {
    Value(whole) as real + Value(frac) as real / Pow10(|frac|) as real
  }

  /** That number times 10^7, as an integer. */
  function Scaled(whole: string, frac: string): nat
    requires AllDigits(whole) && AllDigits(frac) && |frac| <= DECIMALS
  {
    Value(whole) * STROOPS_PER_UNIT + Value(frac) * Pow10(DECIMALS - |frac|)
  }

  lemma {:induction false} PowersAdd(a: nat, b: nat)
    ensures Pow10(a + b) == Pow10(a) * Pow10(b)
  {
    if a > 0 {
      PowersAdd(a - 1, b);
      TimesTen(Pow10(b), Pow10(a - 1));
    }
  }

  lemma ScaledIsExact(whole: string, frac: string)
    requires AllDigits(whole) && AllDigits(frac) && |frac| <= DECIMALS
    ensures Scaled(whole, frac) as real == 10_000_000.0 * Written(whole, frac)
  {
    PowersAdd(|frac|, DECIMALS - |frac|);
    assert Pow10(DECIMALS) == STROOPS_PER_UNIT;
    ShiftPoint(Value(frac), Pow10(|frac|), Pow10(DECIMALS - |frac|));
  }

  lemma ShiftPoint(v: nat, p: nat, q: nat)
    requires p * q == STROOPS_PER_UNIT && p >= 1
    ensures (v * q) as real == 10_000_000.0 * (v as real / p as real)
  {
    var x := v as real / p as real;
    assert x * p as real == v as real;
    assert (p * q) as real == p as real * q as real;
    assert x * (p as real * q as real) == x * p as real * q as real;
    assert (v * q) as real == v as real * q as real;
  }

  // --- to_stroops -----------------------------------------------------------------------------------

  /** `to_stroops`, with its padding already done. */
  function Stroops(amount: string): Option<I64> {
    var (whole, frac) := SplitOnce(Trim(amount));
    if whole == "" || !AllDigits(whole) || !AllDigits(frac) || |frac| > DECIMALS then None
    else if Scaled(whole, frac) > I64_MAX then None
    else Some(Scaled(whole, frac))
  }

  /** Right-padding a fraction with zeros scales it. */
  lemma PaddedValue(frac: string, n: nat)
    requires AllDigits(frac)
    ensures AllDigits(frac + Zeros(n)) && Value(frac + Zeros(n)) == Value(frac) * Pow10(n)
  {
    ValueConcat(frac, Zeros(n));
    ZerosAreZero(n);
  }

  /** The padding loop both parsers run: push zeros until there are seven digits. */
  method PadFraction(frac: string) returns (padded: string)
    ensures padded == frac + Zeros(if |frac| < DECIMALS then DECIMALS - |frac| else 0)
  {
    padded := frac;
    while |padded| < DECIMALS
      invariant |frac| <= |padded| && (|padded| <= DECIMALS || padded == frac)
      invariant padded == frac + Zeros(|padded| - |frac|)
    {
      padded := padded + "0";
    }
  }

  /** Digits parse exactly when there are any and the value fits. */
  lemma DigitsParse(s: string)
    requires AllDigits(s)
    ensures ParseI64(s) == if s != "" && Value(s) <= I64_MAX then Some(Value(s)) else None
  {
    if s != "" {
      assert IsDigit(s[0]);
    }
  }

  /** The checked arithmetic, once both parts are digits. */
  method Combine(whole: string, frac: string) returns (r: Option<I64>)
    requires AllDigits(whole) && AllDigits(frac) && |frac| <= DECIMALS
    ensures r == if whole != "" && Scaled(whole, frac) <= I64_MAX then Some(Scaled(whole, frac)) else None
  {
    DigitsParse(whole);
    var intVal := ParseI64(whole);
    if intVal.None? {
      return None;
    }
    var fracVal := ParseFraction(frac);
    var product := intVal.value * STROOPS_PER_UNIT;
    if product > I64_MAX || product + fracVal > I64_MAX {
      return None;
    }
    r := Some(product + fracVal);
  }

  /** The fraction in stroops, once padded. */
  method ParseFraction(frac: string) returns (stroops: nat)
    requires AllDigits(frac) && |frac| <= DECIMALS
    ensures stroops == Value(frac) * Pow10(DECIMALS - |frac|)
  {
    var padded := PadFraction(frac);
    PaddedValue(frac, DECIMALS - |frac|);
    SevenDigitsFit(padded);
    stroops := ParseI64(padded).value;
  }

  method ToStroops(text: string) returns (r: Option<I64>)
    ensures r == Stroops(text)
  {
    var amount := Trim(text);
    var (whole, frac) := SplitOnce(amount);
    if amount == "" || amount[0] == '-' {
      assert amount != "" ==> whole[0] == '-';
      return None;
    }
    if !AllDigits(whole) || !AllDigits(frac) || |frac| > DECIMALS {
      return None;
    }
    r := Combine(whole, frac);
  }

  /** Seven digits parse, and to less than one unit. */
  lemma SevenDigitsFit(s: string)
    requires AllDigits(s) && |s| == DECIMALS
    ensures Value(s) < STROOPS_PER_UNIT && ParseI64(s) == Some(Value(s))
  {
    ValueBound(s);
    assert Pow10(DECIMALS) == STROOPS_PER_UNIT;
    assert IsDigit(s[0]);
  }

  /** An amount is accepted exactly when it is well formed and its stroops fit, and it is then exact. */
  lemma StroopsIff(amount: string, v: I64)
    ensures Stroops(amount) == Some(v) <==>
      exists whole, frac :: Reads(Trim(amount), whole, frac) && v as real == 10_000_000.0 * Written(whole, frac)
  {
    var text := Trim(amount);
    var (w, f) := SplitOnce(text);
    SplitRejoins(text);
    if Stroops(amount) == Some(v) {
      ScaledIsExact(w, f);
      assert Reads(text, w, f);
    }
    forall whole, frac | Reads(text, whole, frac) && v as real == 10_000_000.0 * Written(whole, frac)
      ensures Stroops(amount) == Some(v)
    {
      var rest := if text == whole && frac == "" then "" else "." + frac;
      assert text == whole + rest;
      SplitAtPoint(whole, rest);
      ScaledIsExact(whole, frac);
    }
  }

  /** The canonical text of an amount: units, a point, seven digits. */
  function Print(v: nat): string {
    Decimal(v / STROOPS_PER_UNIT) + "." + Padded(v % STROOPS_PER_UNIT, DECIMALS)
  }

  /** `v` in exactly `n` digits. */
  function Padded(v: nat, n: nat): string {
    if n == 0 then "" else Padded(v / 10, n - 1) + [Digit(v % 10)]
  }

  lemma {:induction false} PaddedRoundTrip(v: nat, n: nat)
    requires v < Pow10(n)
    ensures |Padded(v, n)| == n && AllDigits(Padded(v, n)) && Value(Padded(v, n)) == v
  {
    if n > 0 {
      PaddedRoundTrip(v / 10, n - 1);
      assert Padded(v, n)[..n - 1] == Padded(v / 10, n - 1);
    }
  }

  lemma PrintRoundTrip(v: nat)
    requires v <= I64_MAX
    ensures Trim(Print(v)) == Print(v) && Stroops(Print(v)) == Some(v)
  {
    var whole, frac := Decimal(v / STROOPS_PER_UNIT), Padded(v % STROOPS_PER_UNIT, DECIMALS);
    DecimalRoundTrip(v / STROOPS_PER_UNIT);
    assert Pow10(DECIMALS) == STROOPS_PER_UNIT;
    PaddedRoundTrip(v % STROOPS_PER_UNIT, DECIMALS);
    StroopsOfParts(whole, frac, v);
  }

  lemma StroopsOfParts(whole: string, frac: string, v: nat)
    requires AllDigits(whole) && AllDigits(frac) && whole != "" && |frac| == DECIMALS
    requires Value(whole) * STROOPS_PER_UNIT + Value(frac) == v <= I64_MAX
    ensures Trim(whole + "." + frac) == whole + "." + frac && Stroops(whole + "." + frac) == Some(v)
  {
    SplitPrinted(whole, frac);
    ScaledWhole(whole, frac);
  }

  lemma ScaledWhole(whole: string, frac: string)
    requires AllDigits(whole) && AllDigits(frac) && |frac| == DECIMALS
    ensures Scaled(whole, frac) == Value(whole) * STROOPS_PER_UNIT + Value(frac)
  {
    assert Pow10(0) == 1;
  }

  lemma SplitPrinted(whole: string, frac: string)
    requires AllDigits(whole) && AllDigits(frac) && whole != "" && frac != ""
    ensures Trim(whole + "." + frac) == whole + "." + frac
    ensures SplitOnce(whole + "." + frac) == (whole, frac)
  {
    var text := whole + "." + frac;
    assert IsDigit(whole[0]) && IsDigit(frac[|frac| - 1]);
    assert text[0] == whole[0] && text[|text| - 1] == frac[|frac| - 1];
    assert Trim(text) == text;
    assert text == whole + ("." + frac);
    SplitAtPoint(whole, "." + frac);
  }

  // --- parse_amount_stroops -------------------------------------------------------------------------

  /** `parse_amount_stroops`: signed parts, extra fraction digits cut off, no overflow check. */
  function ParsedAmount(s: string): Option<int> {
    var (whole, frac) := SplitOnce(s);
    var padded := frac + Zeros(if |frac| < DECIMALS then DECIMALS - |frac| else 0);
    var units, fraction := ParseI64(whole), ParseI64(padded[..DECIMALS]);
    if units.None? || fraction.None? then None
    else Some(units.value * STROOPS_PER_UNIT + fraction.value)
  }

  method ParseAmountStroops(s: string) returns (r: Option<int>)
    ensures r == ParsedAmount(s)
  {
    var (whole, frac) := SplitOnce(s);
    var units := ParseI64(whole);
    if units.None? {
      return None;
    }
    var padded := PadFraction(frac);
    var fraction := ParseI64(padded[..DECIMALS]);
    if fraction.None? {
      return None;
    }
    r := Some(units.value * STROOPS_PER_UNIT + fraction.value);
  }

  lemma {:induction false} FewerZeros(n: nat, m: nat)
    requires n <= m
    ensures Zeros(n) == Zeros(m)[..n]
  {
    if n < m {
      FewerZeros(n, m - 1);
    }
  }

  /** Padding to seven places and cutting there is taking seven places with zeros behind. */
  lemma SevenPlaces(frac: string, n: nat)
    requires n == if |frac| < 7 then 7 - |frac| else 0
    ensures (frac + Zeros(n))[..7] == (frac + Zeros(7))[..7]
  {
    FewerZeros(n, 7);
  }

  /** It reads the two parts as signed numbers, the second from the first seven places. */
  lemma ParsedFrom(s: string, whole: string, frac: string)
    requires SplitOnce(s) == (whole, frac)
    ensures var (units, fraction) := (ParseI64(whole), ParseI64((frac + Zeros(7))[..7]));
      && (ParsedAmount(s).Some? <==> units.Some? && fraction.Some?)
      && (ParsedAmount(s).Some? ==> ParsedAmount(s).value == (units.value as int) * 10_000_000 + fraction.value)
  {
    SevenPlaces(frac, if |frac| < 7 then 7 - |frac| else 0);
  }

  /** The parts are what stands before and after the first point, the second empty where there is none. */
  lemma PartsOf(whole: string, frac: string)
    requires '.' !in whole
    ensures SplitOnce(whole + "." + frac) == (whole, frac) && SplitOnce(whole) == (whole, "")
  {
    SplitAtPoint(whole, "." + frac);
    SplitAtPoint(whole, "");
    assert whole + "." + frac == whole + ("." + frac) && whole + "" == whole;
  }

  /** The two parsers agree, and the unchecked one cannot overflow, wherever the strict one accepts unpadded text. */
  lemma ParsersAgree(s: string, v: I64)
    requires Trim(s) == s && Stroops(s) == Some(v)
    ensures ParsedAmount(s) == Some(v)
    ensures var whole := SplitOnce(s).0;
      ParseI64(whole).Some? && 0 <= ParseI64(whole).value * STROOPS_PER_UNIT <= I64_MAX
  {
    var (whole, frac) := SplitOnce(s);
    var n := DECIMALS - |frac|;
    FractionParses(frac, frac + Zeros(n), n);
    DigitsParse(whole);
  }

  lemma FractionParses(frac: string, padded: string, n: nat)
    requires AllDigits(frac) && |frac| + n == DECIMALS && padded == frac + Zeros(n)
    ensures padded[..DECIMALS] == padded && AllDigits(padded)
    ensures ParseI64(padded) == Some(Value(padded)) && Value(padded) == Value(frac) * Pow10(n)
  {
    PaddedValue(frac, n);
    SevenDigitsFit(padded);
  }
}
