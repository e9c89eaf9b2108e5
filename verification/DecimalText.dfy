/**
 Text forms of 128-bit integers and fixed-scale decimals: the printer used for result rows
 and the two parsers used for INSERT literals and for equality-delete literals.
 */
module DecimalText {
  import opened Common

  const I128_MAX: int := 170141183460469231731687303715884105727
  const I128_MIN: int := -170141183460469231731687303715884105728

  /** The largest power of ten that `10_i128.checked_pow` can produce. */
  const MAX_POW10: nat := 38

  predicate InI128(v: int) {
    I128_MIN <= v <= I128_MAX
  }

  // ---------------------------------------------------------------------
  // Digits
  // ---------------------------------------------------------------------

  function Pow10(e: nat): (p: nat)
    ensures p > 0
  {
    if e == 0 then 1 else 10 * Pow10(e - 1)
  }

  predicate IsDigit(c: char) {
    '0' <= c <= '9'
  }

  predicate AllDigits(s: string) {
    forall i :: 0 <= i < |s| ==> IsDigit(s[i])
  }

  function DigitChar(d: nat): (c: char)
    requires d < 10
    ensures IsDigit(c) && DigitValue(c) == d
  {
    '0' + d as char
  }

  function DigitValue(c: char): (d: nat)
    requires IsDigit(c)
    ensures d < 10
  {
    (c - '0') as nat
  }

  /** The number a digit string denotes, most significant digit first. */
  function DigitsValue(s: string): nat
    requires AllDigits(s)
  {
    if s == [] then 0 else 10 * DigitsValue(s[..|s| - 1]) + DigitValue(s[|s| - 1])
  }

  /** Decimal digits of `n` without leading zeros (`"0"` for zero). */
  function PrintNat(n: nat): (s: string)
    ensures s != [] && AllDigits(s)
    ensures DigitsValue(s) == n
  {
    if n < 10 then
      var s := [DigitChar(n)];
      assert s[..|s| - 1] == [];
      s
    else
      var front, last := PrintNat(n / 10), DigitChar(n % 10);
      assert (front + [last])[..|front|] == front;
      front + [last]
  }

  function PrintInt(v: int): string {
    if v < 0 then "-" + PrintNat(-v) else PrintNat(v)
  }

  function Zeros(n: nat): (s: string)
    ensures |s| == n && AllDigits(s)
    ensures DigitsValue(s) == 0
  {
    if n == 0 then "" else
      var s := Zeros(n - 1);
      assert (s + "0")[..n - 1] == s;
      s + "0"
  }

  lemma TenTimes(v: nat, p: nat, q: nat)
    requires q == 10 * p
    ensures v * q == 10 * (v * p)
  {
  }

  /** Concatenating digit strings shifts the left one by the length of the right one. */
  lemma {:induction false} DigitsValueConcat(a: string, b: string)
    requires AllDigits(a) && AllDigits(b)
    ensures AllDigits(a + b)
    ensures DigitsValue(a + b) == DigitsValue(a) * Pow10(|b|) + DigitsValue(b)
  {
    if b == [] {
      assert a + b == a;
    } else {
      var front := b[..|b| - 1];
      DigitsValueConcat(a, front);
      assert (a + b)[..|a + b| - 1] == a + front;
      TenTimes(DigitsValue(a), Pow10(|front|), Pow10(|b|));
    }
  }

  lemma OneDigit(c: char)
    requires IsDigit(c)
    ensures DigitsValue([c]) == DigitValue(c)
  {
    assert [c][..0] == [];
  }

  /** The first digit counts by its place. */
  lemma FirstDigit(s: string)
    requires s != "" && AllDigits(s)
    ensures DigitsValue(s) == DigitValue(s[0]) * Pow10(|s| - 1) + DigitsValue(s[1..])
  {
    OneDigit(s[0]);
    DigitsValueConcat([s[0]], s[1..]);
    assert [s[0]] + s[1..] == s;
  }

  lemma {:induction false} DigitsValueBound(s: string)
    requires AllDigits(s)
    ensures DigitsValue(s) < Pow10(|s|)
  {
    if s != [] {
      DigitsValueBound(s[..|s| - 1]);
    }
  }

  // ---------------------------------------------------------------------
  // Rust's `str::parse::<i128>`
  // ---------------------------------------------------------------------

  /** Optional sign, at least one digit, nothing else, and in range. */
  function ParseI128(s: string): Option<int> {
    if s == "" then None
    else
      var negative := s[0] == '-';
      var digits := if s[0] == '-' || s[0] == '+' then s[1..] else s;
      if digits == "" || !AllDigits(digits) then None
      else
        var v: int := if negative then 0 - DigitsValue(digits) else DigitsValue(digits);
        if InI128(v) then Some(v) else None
  }

  lemma ParseDigits(s: string)
    requires s != "" && AllDigits(s) && DigitsValue(s) <= I128_MAX
    ensures ParseI128(s) == Some(DigitsValue(s))
  {
    assert IsDigit(s[0]);
  }

  /** Printing an `i128` and parsing it back gives the same value. */
  lemma ParsePrintedInt(v: int)
    requires InI128(v)
    ensures ParseI128(PrintInt(v)) == Some(v)
  {
    if v < 0 {
      assert ("-" + PrintNat(-v))[1..] == PrintNat(-v);
    } else {
      ParseDigits(PrintNat(v));
    }
  }

  // ---------------------------------------------------------------------
  // Printing
  // ---------------------------------------------------------------------

  function Abs(v: int): nat {
    if v < 0 then -v else v
  }

  /** A sign, digits, a dot and exactly `scale` fraction digits; a bare integer when `scale <= 0`. */
  function FormatDecimal(unscaled: int, scale: int): string
    requires scale > 0 ==> unscaled != I128_MIN // `i128::abs` overflows there
  {
    if scale <= 0 then PrintInt(unscaled)
    else
      var body := DecimalBody(PrintNat(Abs(unscaled)), scale);
      if unscaled < 0 then "-" + body else body
  }

  /** The unsigned digits with a dot before the last `scale` of them, padded with zeros on the left. */
  function DecimalBody(digits: string, scale: nat): string {
    if |digits| <= scale then "0" + "." + (Zeros(scale - |digits|) + digits)
    else digits[..|digits| - scale] + "." + digits[|digits| - scale..]
  }

  // ---------------------------------------------------------------------
  // Parsing
  // ---------------------------------------------------------------------

  /** `Overflow` stands for an `i128` operation that leaves the range. */
  datatype DecimalError = InvalidLiteral | BadScale | TooManyFractionDigits | Overflow

  /** The characters `str::trim` removes. */
  predicate IsSpace(c: char) {
    || '\U{9}' <= c <= '\U{d}' || c == ' ' || c == '\U{85}' || c == '\U{a0}' || c == '\U{1680}'
    || '\U{2000}' <= c <= '\U{200a}' || c == '\U{2028}' || c == '\U{2029}' || c == '\U{202f}'
    || c == '\U{205f}' || c == '\U{3000}'
  }

  function Trim(s: string): string
    decreases |s|
  {
    if s == "" then s
    else if IsSpace(s[0]) then Trim(s[1..])
    else if IsSpace(s[|s| - 1]) then Trim(s[..|s| - 1])
    else s
  }

  /** Position of the first `c` in `s`. */
  function Find(s: string, c: char): (r: Option<nat>)
    ensures r.Some? ==> r.value < |s| && s[r.value] == c && c !in s[..r.value]
    ensures r.None? ==> c !in s
  {
    if s == "" then None
    else if s[0] == c then Some(0)
    else match Find(s[1..], c)
      case None => None
      case Some(i) =>
        assert s[..i + 1] == [s[0]] + s[1..][..i];
        Some(i + 1)
  }

  function Checked(v: int): Result<int, DecimalError> {
    if InI128(v) then Ok(v) else Err(Overflow)
  }

  /** Rust's `/` on a possibly negative dividend. */
  function TruncDiv(a: int, b: nat): int
    requires b > 0
  {
    if a < 0 then -((-a) / b) else a / b
  }

  function ParsePart(s: string): Result<int, DecimalError> {
    if s == "" then Ok(0)
    else match ParseI128(s)
      case None => Err(InvalidLiteral)
      case Some(v) => Ok(v)
  }

  /** The fraction scaled up or truncated to exactly `scale` digits. */
  function AdjustFraction(value: int, len: nat, scale: nat): Result<int, DecimalError> {
    if len <= scale then
      if scale - len > MAX_POW10 then Err(Overflow) else Checked(value * Pow10(scale - len))
    else
      if len - scale > MAX_POW10 then Err(Overflow) else Ok(TruncDiv(value, Pow10(len - scale)))
  }

  /** The INSERT literal parser. */
  function ParseInsertDecimal(literal: string, scale: int): Result<int, DecimalError> {
    var s := Trim(literal);
    if scale < 0 || scale > MAX_POW10 then Err(BadScale)
    else
      match Find(s, '.')
      case None =>
        (match ParseI128(s)
         case None => Err(InvalidLiteral)
         case Some(v) => Checked(v * Pow10(scale)))
      case Some(dot) =>
        var negative := s[0] == '-';
        var fraction := s[dot + 1..];
        match ParsePart(s[if negative then 1 else 0..dot])
        case Err(e) => Err(e)
        case Ok(whole) =>
          match ParsePart(fraction)
          case Err(e) => Err(e)
          case Ok(frac) => CombineParts(negative, whole, frac, |fraction|, scale)
  }

  /** Whole part times ten to the scale, plus the adjusted fraction, with every `i128` step checked. */
  function CombineParts(negative: bool, whole: int, frac: int, fracLen: nat, scale: nat)
    : Result<int, DecimalError>
  {
    match AdjustFraction(frac, fracLen, scale)
    case Err(e) => Err(e)
    case Ok(adjusted) =>
      match Checked(whole * Pow10(scale))
      case Err(e) => Err(e)
      case Ok(scaled) =>
        match Checked(scaled + adjusted)
        case Err(e) => Err(e)
        case Ok(magnitude) => if negative then Checked(-magnitude) else Ok(magnitude)
  }

  /** Digits of 2^127, the magnitude of `i128::MIN`. */
  const I128_MIN_ABS: string := PrintNat(170141183460469231731687303715884105728)

  function StripLeadingPlus(s: string): string {
    if s != "" && s[0] == '+' then StripLeadingPlus(s[1..]) else s
  }

  /** The equality-delete literal parser. */
  function ParseEqualityDecimal(literal: string, scale: int): Result<int, DecimalError> {
    if scale < 0 then Err(BadScale)
    else
      var trimmed := Trim(literal);
      var negative := trimmed != "" && trimmed[0] == '-';
      var raw := if trimmed != "" && (trimmed[0] == '-' || trimmed[0] == '+') then trimmed[1..] else trimmed;
      ParseUnsigned(negative, raw, scale)
  }

  /** The text before and after the first dot. */
  function SplitOnce(raw: string): (string, string) {
    match Find(raw, '.')
    case None => (raw, "")
    case Some(dot) => (raw[..dot], raw[dot + 1..])
  }

  function ParseUnsigned(negative: bool, raw: string, scale: nat): Result<int, DecimalError> {
    var (whole, fraction) := SplitOnce(raw);
    if |fraction| > scale then Err(TooManyFractionDigits)
    else SignCombined(negative, StripLeadingPlus(whole + (fraction + Zeros(scale - |fraction|))), scale)
  }

  function SignCombined(negative: bool, combined: string, scale: nat): Result<int, DecimalError> {
    match
      if combined == "" then Some(0)
      else if negative && scale == 0 && combined == I128_MIN_ABS then Some(I128_MIN)
      else ParseI128(combined)
    case None => Err(InvalidLiteral)
    case Some(parsed) => if negative && parsed != I128_MIN then Ok(-parsed) else Ok(parsed)
  }

  // ---------------------------------------------------------------------
  // Round trips
  // ---------------------------------------------------------------------

  /** What a positive-scale decimal looks like once printed. */
  ghost predicate Printed(s: string, whole: string, fraction: string, v: int, scale: nat) {
    && whole != "" && AllDigits(whole) && AllDigits(fraction) && |fraction| == scale
    && s == (if v < 0 then "-" else "") + (whole + "." + fraction)
    && DigitsValue(whole) * Pow10(scale) + DigitsValue(fraction) == Abs(v)
  }

  lemma BodyShape(digits: string, scale: nat) returns (whole: string, fraction: string)
    requires digits != "" && AllDigits(digits)
    ensures DecimalBody(digits, scale) == whole + "." + fraction
    ensures whole != "" && AllDigits(whole) && AllDigits(fraction) && |fraction| == scale
    ensures DigitsValue(whole) * Pow10(scale) + DigitsValue(fraction) == DigitsValue(digits)
  {
    if |digits| <= scale {
      whole, fraction := "0", Zeros(scale - |digits|) + digits;
      PaddedValue(digits, scale - |digits|, Pow10(scale));
    } else {
      whole, fraction := digits[..|digits| - scale], digits[|digits| - scale..];
      assert digits == whole + fraction;
      DigitsValueConcat(whole, fraction);
    }
  }

  lemma PaddedValue(digits: string, zeros: nat, p: nat)
    requires AllDigits(digits)
    ensures AllDigits(Zeros(zeros) + digits) && DigitsValue("0") * p + DigitsValue(Zeros(zeros) + digits) == DigitsValue(digits)
  {
    DigitsValueConcat(Zeros(zeros), digits);
    assert "0"[..0] == "";
  }

  lemma FormatShape(v: int, scale: nat) returns (whole: string, fraction: string)
    requires scale > 0 && v != I128_MIN
    ensures Printed(FormatDecimal(v, scale), whole, fraction, v, scale)
  {
    whole, fraction := BodyShape(PrintNat(Abs(v)), scale);
    assert "" + (whole + "." + fraction) == whole + "." + fraction;
  }

  lemma FindFirst(prefix: string, rest: string)
    requires '.' !in prefix
    ensures Find(prefix + "." + rest, '.') == Some(|prefix|)
  {
    var s := prefix + "." + rest;
    assert s[|prefix|] == '.';
    assert forall i :: 0 <= i < |prefix| ==> s[i] == prefix[i];
  }

  lemma NoDot(s: string)
    requires AllDigits(s)
    ensures '.' !in s && Trim(s) == s && StripLeadingPlus(s) == s
  {
    if s != "" {
      assert IsDigit(s[0]) && IsDigit(s[|s| - 1]);
    }
  }

  /** The two halves of a printed magnitude are themselves in range. */
  lemma HalvesInRange(whole: nat, fraction: nat, scale: nat, v: int)
    requires whole * Pow10(scale) + fraction == Abs(v) <= I128_MAX
    ensures whole <= I128_MAX && fraction <= I128_MAX && whole * Pow10(scale) <= I128_MAX
  {
    var p := Pow10(scale);
    assert whole * p >= whole by {
      assert whole * p - whole == whole * (p - 1);
    }
  }

  /** A printed decimal neither starts nor ends with white space, and its first dot ends the whole part. */
  lemma PrintedScan(s: string, whole: string, fraction: string, v: int, scale: nat)
    requires Printed(s, whole, fraction, v, scale) && scale > 0
    ensures Trim(s) == s && (s[0] == '-' <==> v < 0) && s[0] != '+'
    ensures var sign := if v < 0 then 1 else 0;
            Find(s, '.') == Some(sign + |whole|) && s[sign..sign + |whole|] == whole
            && s[sign + |whole| + 1..] == fraction
  {
    var sign := if v < 0 then "-" else "";
    Assoc3(sign, whole, ".", fraction);
    NoDot(whole);
    FindFirst(sign + whole, fraction);
    DottedEnds(sign, whole, fraction, s);
  }

  lemma Assoc3(a: string, b: string, c: string, d: string)
    ensures a + (b + c + d) == (a + b) + c + d
  {
  }

  /** Where the pieces of a signed, dotted text lie. */
  lemma DottedEnds(sign: string, whole: string, fraction: string, s: string)
    requires (sign == "-" || sign == "") && whole != "" && AllDigits(whole) && fraction != "" && AllDigits(fraction)
    requires s == sign + whole + "." + fraction
    ensures Trim(s) == s && (s[0] == '-' <==> sign == "-") && s[0] != '+'
    ensures s[|sign|..|sign| + |whole|] == whole && s[|sign| + |whole| + 1..] == fraction
  {
    assert IsDigit(whole[0]) && IsDigit(fraction[|fraction| - 1]);
    assert s[|s| - 1] == fraction[|fraction| - 1];
    assert s[0] == (sign + whole)[0];
  }

  lemma InsertParsesPrinted(s: string, whole: string, fraction: string, v: int, scale: nat)
    requires Printed(s, whole, fraction, v, scale) && 0 < scale <= MAX_POW10
    requires InI128(v) && v != I128_MIN
    ensures ParseInsertDecimal(s, scale) == Ok(v)
  {
    PrintedScan(s, whole, fraction, v, scale);
    HalvesInRange(DigitsValue(whole), DigitsValue(fraction), scale, v);
    ParseDigits(whole);
    ParseDigits(fraction);
    CombineHalves(DigitsValue(whole), DigitsValue(fraction), v, scale);
  }

  lemma CombineHalves(whole: nat, frac: nat, v: int, scale: nat)
    requires whole * Pow10(scale) + frac == Abs(v)
    requires InI128(v) && v != I128_MIN
    ensures CombineParts(v < 0, whole, frac, scale, scale) == Ok(v)
  {
    HalvesInRange(whole, frac, scale, v);
    assert frac * Pow10(0) == frac;
  }

  lemma EqualityParsesPrinted(s: string, whole: string, fraction: string, v: int, scale: nat)
    requires Printed(s, whole, fraction, v, scale) && scale > 0
    requires InI128(v) && v != I128_MIN
    ensures ParseEqualityDecimal(s, scale) == Ok(v)
  {
    PrintedScan(s, whole, fraction, v, scale);
    assert (if v < 0 then s[1..] else s) == whole + "." + fraction;
    UnsignedParses(whole, fraction, v, scale);
  }

  lemma SplitDotted(whole: string, fraction: string)
    requires AllDigits(whole)
    ensures SplitOnce(whole + "." + fraction) == (whole, fraction)
  {
    var raw := whole + "." + fraction;
    NoDot(whole);
    FindFirst(whole, fraction);
    assert raw[..|whole|] == whole && raw[|whole| + 1..] == fraction;
  }

  lemma UnsignedParses(whole: string, fraction: string, v: int, scale: nat)
    requires whole != "" && AllDigits(whole) && AllDigits(fraction) && |fraction| == scale > 0
    requires DigitsValue(whole) * Pow10(scale) + DigitsValue(fraction) == Abs(v)
    requires InI128(v) && v != I128_MIN
    ensures ParseUnsigned(v < 0, whole + "." + fraction, scale) == Ok(v)
  {
    SplitDotted(whole, fraction);
    assert fraction + Zeros(0) == fraction;
    DigitsValueConcat(whole, fraction);
    NoDot(whole + fraction);
    ParseDigits(whole + fraction);
  }

  lemma IntegerScan(v: int)
    ensures var s := PrintInt(v); Trim(s) == s && Find(s, '.').None? && s != "" && s[0] != '+' && (s[0] == '-' <==> v < 0)
    ensures v < 0 ==> PrintInt(v)[1..] == PrintNat(-v)
  {
    NoDot(PrintNat(Abs(v)));
    var digits := PrintNat(Abs(v));
    assert IsDigit(digits[0]) && IsDigit(digits[|digits| - 1]);
  }

  lemma EqualityParsesInteger(v: int)
    requires InI128(v)
    ensures ParseEqualityDecimal(PrintInt(v), 0) == Ok(v)
  {
    IntegerScan(v);
    var digits := PrintNat(Abs(v));
    NoDot(digits);
    assert digits + ("" + Zeros(0)) == digits;
    SignDigits(v);
  }

  lemma SignDigits(v: int)
    requires InI128(v)
    ensures SignCombined(v < 0, PrintNat(Abs(v)), 0) == Ok(v)
  {
    var digits := PrintNat(Abs(v));
    var value := DigitsValue(digits);
    if v == I128_MIN {
      assert digits == I128_MIN_ABS;
    } else {
      ParseDigits(digits);
      assert DigitsValue(I128_MIN_ABS) != value;
    }
  }

  /**
   Both parsers recover exactly the value the printer was given, at every scale a decimal
   column can have, so they agree with each other on every printed decimal.
   */
  lemma DecimalRoundTrip(v: int, scale: nat)
    requires InI128(v) && scale <= MAX_POW10
    requires scale > 0 ==> v != I128_MIN
    ensures ParseInsertDecimal(FormatDecimal(v, scale), scale) == Ok(v)
    ensures ParseEqualityDecimal(FormatDecimal(v, scale), scale) == Ok(v)
  {
    if scale == 0 {
      IntegerScan(v);
      ParsePrintedInt(v);
      assert v * Pow10(0) == v;
      EqualityParsesInteger(v);
    } else {
      var whole, fraction := FormatShape(v, scale);
      InsertParsesPrinted(FormatDecimal(v, scale), whole, fraction, v, scale);
      EqualityParsesPrinted(FormatDecimal(v, scale), whole, fraction, v, scale);
    }
  }

  // ---------------------------------------------------------------------
  // Every decimal text
  // ---------------------------------------------------------------------

  /** `m` is the number `whole.fraction` in units of ten to the minus `scale`, cut off. */
  ghost predicate Denotes(whole: string, fraction: string, scale: nat, m: nat)
    requires AllDigits(whole) && AllDigits(fraction)
  {
    IsFloor(m, Pow10(|fraction|), (DigitsValue(whole) * Pow10(|fraction|) + DigitsValue(fraction)) * Pow10(scale))
  }

  /** `m` is `n / d`, cut off. */
  predicate IsFloor(m: nat, d: nat, n: int) {
    m * d <= n < (m + 1) * d
  }

  function Signed(negative: bool, m: nat): int {
    if negative then 0 - m else m
  }

  lemma {:induction false} PowerSum(a: nat, b: nat)
    ensures Pow10(a + b) == Pow10(a) * Pow10(b)
  {
    if a > 0 {
      PowerSum(a - 1, b);
      TenFirst(Pow10(a - 1), Pow10(b));
    }
  }

  lemma TenFirst(p: nat, q: nat)
    ensures 10 * (p * q) == (10 * p) * q
  {
  }

  lemma FloorUnique(m: nat, x: nat, d: nat, n: int)
    requires d > 0 && IsFloor(m, d, n) && IsFloor(x, d, n)
    ensures m == x
  {
    if m < x {
      TimesMonotone(m + 1, x, d);
    } else if x < m {
      TimesMonotone(x + 1, m, d);
    }
  }

  lemma TimesMonotone(a: nat, b: nat, d: nat)
    requires a <= b
    ensures a * d <= b * d
  {
  }

  /** The fraction brought to the scale is its own floor there. */
  lemma AdjustedFloor(f: nat, len: nat, scale: nat, p: nat, r: nat, n: int) returns (a: nat)
    requires p == Pow10(len) && r == Pow10(scale) && f < p && scale <= MAX_POW10 && len <= scale + MAX_POW10 && n == f * r
    ensures AdjustFraction(f, len, scale) == Ok(a) && IsFloor(a, p, n)
  {
    if len <= scale {
      PowerSum(scale - len, len);
      PowerBound(scale);
      a := ScaledUp(f, Pow10(scale - len), p, r, n);
      ScaledBound(f, Pow10(scale - len), p, r);
    } else {
      PowerSum(len - scale, scale);
      a := ScaledDown(f, Pow10(len - scale), r, p, n);
      TruncatesDown(f, len, scale, a);
    }
  }

  lemma TruncatesDown(f: nat, len: nat, scale: nat, a: nat)
    requires scale < len <= scale + MAX_POW10 && a == f / Pow10(len - scale)
    ensures AdjustFraction(f, len, scale) == Ok(a)
  {
  }

  lemma ScaledUp(f: nat, p: nat, q: nat, r: nat, n: int) returns (a: nat)
    requires r == p * q && q > 0 && n == f * r
    ensures a == f * p && IsFloor(a, q, n)
  {
    a := f * p;
    Reassociate(f, p, q);
  }

  lemma ScaledBound(f: nat, p: nat, q: nat, r: nat)
    requires r == p * q && f < q && r <= I128_MAX
    ensures f * p <= I128_MAX
  {
    TimesMonotone(f, q, p);
  }

  lemma ScaledDown(f: nat, p: nat, q: nat, r: nat, n: int) returns (a: nat)
    requires r == p * q && p > 0 && q > 0 && n == f * q
    ensures a == f / p && IsFloor(a, r, n)
  {
    a := f / p;
    DividedBetween(f, p, a);
    TimesMonotone(a * p, f, q);
    BelowTimes(f, (a + 1) * p, q);
    Reassociate(a, p, q);
    Reassociate(a + 1, p, q);
  }

  lemma DividedBetween(f: nat, p: nat, a: nat)
    requires p > 0 && a == f / p
    ensures 0 <= a * p <= f < (a + 1) * p
  {
  }

  lemma BelowTimes(f: nat, g: nat, q: nat)
    requires f < g && q > 0
    ensures f * q < g * q
  {
  }

  lemma Reassociate(a: nat, p: nat, q: nat)
    ensures a * p * q == a * (p * q)
  {
  }

  lemma PowerBound(e: nat)
    requires e <= MAX_POW10
    ensures Pow10(e) <= 100000000000000000000000000000000000000
  {
    PowerSum(MAX_POW10 - e, e);
    BigPower();
    TimesMonotone(1, Pow10(MAX_POW10 - e), Pow10(e));
  }

  lemma BigPower()
    ensures Pow10(38) == 100000000000000000000000000000000000000
  {
    assert Pow10(10) == 10000000000;
    PowerSum(10, 10);
    PowerSum(20, 10);
    assert Pow10(8) == 100000000;
    PowerSum(30, 8);
  }

  /** Whole part and adjusted fraction together are the floor of the whole number. */
  lemma FloorOfSum(w: nat, f: nat, a: nat, p: nat, r: nat, n: int, total: int) returns (x: nat)
    requires n == f * r && IsFloor(a, p, n) && total == (w * p + f) * r
    ensures x == w * r + a && IsFloor(x, p, total)
  {
    x := w * r + a;
    SumParts(w, f, p, r);
    SumParts(w, a, r, p);
    SumParts(w, a + 1, r, p);
    SwapFactors(w, p, r);
  }

  lemma SwapFactors(w: nat, p: nat, r: nat)
    ensures w * p * r == w * r * p
  {
  }

  lemma SumParts(w: nat, f: nat, p: nat, r: nat)
    ensures (w * p + f) * r == w * p * r + f * r
  {
  }

  /** A signed, dotted text, with either part possibly empty. */
  function Dotted(sign: string, whole: string, fraction: string): string {
    sign + whole + "." + fraction
  }

  lemma DottedScan(sign: string, whole: string, fraction: string)
    requires (sign == "-" || sign == "") && AllDigits(whole) && AllDigits(fraction)
    ensures var s := Dotted(sign, whole, fraction);
            && Trim(s) == s && s != "" && (s[0] == '-' <==> sign == "-") && s[0] != '+'
            && Find(s, '.') == Some(|sign| + |whole|) && s[|sign|..|sign| + |whole|] == whole && s[|sign| + |whole| + 1..] == fraction
  {
    var s := Dotted(sign, whole, fraction);
    NoDot(whole);
    FindFirst(sign + whole, fraction);
    assert forall i :: 0 <= i < |whole| ==> s[|sign| + i] == whole[i];
    assert s[|s| - 1] == (if fraction == "" then '.' else fraction[|fraction| - 1]);
    assert fraction != "" ==> IsDigit(fraction[|fraction| - 1]);
    assert whole != "" ==> IsDigit(whole[0]);
    assert s[0] == (if sign == "-" then '-' else if whole == "" then '.' else whole[0]);
  }

  lemma ParsesPart(s: string)
    requires AllDigits(s)
    ensures ParsePart(s) == if DigitsValue(s) <= I128_MAX then Ok(DigitsValue(s)) else Err(InvalidLiteral)
  {
    if s != "" && DigitsValue(s) <= I128_MAX {
      ParseDigits(s);
    }
    assert s != "" ==> IsDigit(s[0]);
  }

  lemma InsertReads(sign: string, whole: string, fraction: string, scale: nat, w: nat, f: nat)
    requires (sign == "-" || sign == "") && AllDigits(whole) && AllDigits(fraction) && scale <= MAX_POW10
    requires w == DigitsValue(whole) && f == DigitsValue(fraction)
    ensures ParseInsertDecimal(Dotted(sign, whole, fraction), scale) ==
            if w <= I128_MAX && f <= I128_MAX then CombineParts(sign == "-", w, f, |fraction|, scale) else Err(InvalidLiteral)
  {
    DottedScan(sign, whole, fraction);
    ParsesPart(whole);
    ParsesPart(fraction);
  }

  lemma CombinesParts(negative: bool, w: nat, f: nat, len: nat, scale: nat, a: nat, scaled: nat, m: nat)
    requires AdjustFraction(f, len, scale) == Ok(a) && w * Pow10(scale) == scaled && m == scaled + a
    ensures CombineParts(negative, w, f, len, scale) == if m <= I128_MAX then Ok(Signed(negative, m)) else Err(Overflow)
  {
  }

  /** The value's two parts: the whole one scaled, and the fraction's floor. */
  lemma ValueParts(w: nat, f: nat, a: nat, p: nat, r: nat, n: int, total: int, m: nat)
    requires p > 0 && r > 0 && n == f * r && IsFloor(a, p, n) && total == (w * p + f) * r && IsFloor(m, p, total)
    ensures w * r >= 0 && m == w * r + a && w <= m
  {
    var x := FloorOfSum(w, f, a, p, r, n, total);
    FloorUnique(m, x, p, total);
    TimesMonotone(1, r, w);
  }

  lemma SplitsValue(w: nat, f: nat, len: nat, scale: nat, p: nat, r: nat, n: int, total: int, m: nat) returns (a: nat)
    requires p == Pow10(len) && r == Pow10(scale) && f < p && scale <= MAX_POW10 && len <= scale + MAX_POW10
    requires n == f * r && total == (w * p + f) * r && IsFloor(m, p, total)
    ensures AdjustFraction(f, len, scale) == Ok(a) && w * r >= 0 && m == w * r + a && w <= m
  {
    a := AdjustedFloor(f, len, scale, p, r, n);
    ValueParts(w, f, a, p, r, n, total, m);
  }

  lemma SplitsDigits(whole: string, fraction: string, scale: nat, m: nat) returns (w: nat, f: nat, scaled: nat, a: nat)
    requires AllDigits(whole) && AllDigits(fraction) && scale <= MAX_POW10 && |fraction| <= scale + MAX_POW10
    requires Denotes(whole, fraction, scale, m)
    ensures w == DigitsValue(whole) && f == DigitsValue(fraction) && w * Pow10(scale) == scaled
    ensures AdjustFraction(f, |fraction|, scale) == Ok(a) && m == scaled + a && w <= m
  {
    w, f := DigitsValue(whole), DigitsValue(fraction);
    var p, r := Pow10(|fraction|), Pow10(scale);
    DigitsValueBound(fraction);
    a := SplitsValue(w, f, |fraction|, scale, p, r, f * r, (w * p + f) * r, m);
    scaled := m - a;
  }

  /** Which dotted texts the INSERT parser takes: no `i128` step may overflow, the fraction's digits included. */
  ghost predicate InsertTakes(fraction: string, scale: nat, m: nat)
    requires AllDigits(fraction)
  {
    m <= I128_MAX && DigitsValue(fraction) <= I128_MAX && |fraction| <= scale + MAX_POW10
  }

  /** The INSERT parser on every dotted text: the value cut off at the scale, exactly when no step overflows. */
  lemma InsertParsesText(sign: string, whole: string, fraction: string, scale: nat, m: nat)
    requires (sign == "-" || sign == "") && AllDigits(whole) && AllDigits(fraction) && scale <= MAX_POW10
    requires Denotes(whole, fraction, scale, m)
    ensures var r := ParseInsertDecimal(Dotted(sign, whole, fraction), scale);
            if InsertTakes(fraction, scale, m) then r == Ok(Signed(sign == "-", m)) else r.Err?
  {
    InsertReads(sign, whole, fraction, scale, DigitsValue(whole), DigitsValue(fraction));
    if |fraction| <= scale + MAX_POW10 {
      var w, f, scaled, a := SplitsDigits(whole, fraction, scale, m);
      CombinesParts(sign == "-", w, f, |fraction|, scale, a, scaled, m);
    }
  }

  /** A fraction that fits the scale leaves only the value itself to overflow. */
  lemma ShortFractionTakes(fraction: string, scale: nat, m: nat)
    requires AllDigits(fraction) && |fraction| <= scale <= MAX_POW10
    ensures InsertTakes(fraction, scale, m) <==> m <= I128_MAX
  {
    DigitsValueBound(fraction);
    PowerBound(|fraction|);
  }

  /** What the equality-delete parser answers on digits that spell `m`: only a bare `i128::MIN` may pass the maximum. */
  function SignedDigits(negative: bool, digits: string, scale: nat, m: nat): Result<int, DecimalError> {
    if m <= I128_MAX then Ok(Signed(negative, m))
    else if negative && scale == 0 && digits == I128_MIN_ABS then Ok(I128_MIN)
    else Err(InvalidLiteral)
  }

  /** The equality-delete parser on every dotted text: the value if nothing has to be cut off and it fits, else an error. */
  lemma EqualityParsesText(sign: string, whole: string, fraction: string, scale: nat, m: nat)
    requires (sign == "-" || sign == "") && AllDigits(whole) && AllDigits(fraction)
    requires Denotes(whole, fraction, scale, m)
    ensures ParseEqualityDecimal(Dotted(sign, whole, fraction), scale) ==
            if |fraction| <= scale then SignedDigits(sign == "-", whole + fraction, scale, m) else Err(TooManyFractionDigits)
  {
    DottedScan(sign, whole, fraction);
    var s := Dotted(sign, whole, fraction);
    assert (if sign == "-" then s[1..] else s) == whole + "." + fraction;
    SplitDotted(whole, fraction);
    if |fraction| <= scale {
      CombinedValue(whole, fraction, scale, m);
      SignsCombined(sign == "-", whole + (fraction + Zeros(scale - |fraction|)), scale, m);
      assert scale == 0 ==> whole + (fraction + Zeros(scale - |fraction|)) == whole + fraction;
    }
  }

  /** The digits of both parts, padded to the scale, spell the value. */
  lemma CombinedValue(whole: string, fraction: string, scale: nat, m: nat)
    requires AllDigits(whole) && AllDigits(fraction) && |fraction| <= scale && Denotes(whole, fraction, scale, m)
    ensures var combined := whole + (fraction + Zeros(scale - |fraction|));
            AllDigits(combined) && DigitsValue(combined) == m
  {
    var w, f, p, r := DigitsValue(whole), DigitsValue(fraction), Pow10(|fraction|), Pow10(scale);
    var zeros := Zeros(scale - |fraction|);
    DigitsValueConcat(fraction, zeros);
    DigitsValueConcat(whole, fraction + zeros);
    PowerSum(scale - |fraction|, |fraction|);
    JoinedValue(w, f, p, Pow10(|zeros|), r, m);
  }

  lemma JoinedValue(w: nat, f: nat, p: nat, q: nat, r: nat, m: nat)
    requires p > 0 && r > 0 && r == q * p && IsFloor(m, p, (w * p + f) * r)
    ensures m == w * r + f * q
  {
    var a := ScaledUp(f, q, p, r, f * r);
    ValueParts(w, f, a, p, r, f * r, (w * p + f) * r, m);
  }

  lemma SignsCombined(negative: bool, combined: string, scale: nat, m: nat)
    requires AllDigits(combined) && DigitsValue(combined) == m
    ensures SignCombined(negative, StripLeadingPlus(combined), scale) == SignedDigits(negative, combined, scale, m)
  {
    NoDot(combined);
    assert combined != "" ==> IsDigit(combined[0]);
    if combined != "" && m <= I128_MAX {
      ParseDigits(combined);
    }
  }
}
