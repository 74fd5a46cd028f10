/**
  The integer syntax of `Mcp-Param-*` headers: an optional sign, decimal digits, an
  optional fraction and an optional exponent, evaluated with checked 64-bit arithmetic.
  A string is the sequence of its UTF-8 bytes, one `char` a byte.
 */
module IntegerHeader {
  import opened Common

  const MAX_SAFE_INTEGER: int := 9_007_199_254_740_991
  const I64_MIN: int := -0x8000_0000_0000_0000
  const I64_MAX: int := 0x7FFF_FFFF_FFFF_FFFF
  const U64_MAX: int := 0xFFFF_FFFF_FFFF_FFFF
  const U32_MAX: int := 0xFFFF_FFFF

  /** Number of decimal digits in `MAX_SAFE_INTEGER`. */
  const SAFE_DIGITS: nat := 16

  predicate IsDigit(c: char) { '0' <= c <= '9' }

  predicate AllDigits(s: string) { forall i | 0 <= i < |s| :: IsDigit(s[i]) }

  predicate AllZeroes(s: string) { forall i | 0 <= i < |s| :: s[i] == '0' }

  function DigitsValue(s: string): nat
    requires AllDigits(s)
  {
    if s == "" then 0
    else 10 * DigitsValue(s[..|s| - 1]) + (s[|s| - 1] as int - '0' as int)
  }

  function Negated(negative: bool, x: int): int { if negative then -x else x }

  function Pow10(n: nat): nat { if n == 0 then 1 else 10 * Pow10(n - 1) }

  function InRange(x: int, low: int, high: int): Option<int> {
    if low <= x <= high then Some(x) else None
  }

  // ----- Syntax -----

  datatype Parts = Parts(negative: bool, whole: string, fraction: string, exponent: int)

  /** The index of the first character of `s` in `separators`, or |s|. */
  function FirstIndex(s: string, separators: set<char>): (i: nat)
    ensures i <= |s|
    ensures i < |s| ==> s[i] in separators
    ensures forall j | 0 <= j < i :: s[j] !in separators
  {
    if s == "" || s[0] in separators then 0
    else
      var i := FirstIndex(s[1..], separators);
      assert forall j | 0 < j < i + 1 :: s[j] == s[1..][j - 1];
      i + 1
  }

  /** Rust's `str::parse::<i64>`. */
  function ParseI64(s: string): Option<int> {
    var negative := s != "" && s[0] == '-';
    var digits := if s != "" && (s[0] == '-' || s[0] == '+') then s[1..] else s;
    if digits == "" || !AllDigits(digits) then None
    else InRange(Negated(negative, DigitsValue(digits)), I64_MIN, I64_MAX)
  }

  function SplitExponent(s: string): Option<(string, int)> {
    var i := FirstIndex(s, {'e', 'E'});
    if i == |s| then Some((s, 0))
    else match ParseI64(s[i + 1..])
         case None => None
         case Some(exponent) => Some((s[..i], exponent))
  }

  function SplitFraction(mantissa: string): Option<(string, string)> {
    var i := FirstIndex(mantissa, {'.'});
    if i == |mantissa| then Some((mantissa, ""))
    else if i + 1 < |mantissa| then Some((mantissa[..i], mantissa[i + 1..]))
    else None
  }

  function SplitParts(text: string): (r: Option<Parts>)
    ensures r.Some? ==> AllDigits(r.value.whole) && AllDigits(r.value.fraction)
  {
    var negative := text != "" && text[0] == '-';
    var value := if text != "" && (text[0] == '-' || text[0] == '+') then text[1..] else text;
    match SplitExponent(value)
    case None => None
    case Some((mantissa, exponent)) =>
      match SplitFraction(mantissa)
      case None => None
      case Some((whole, fraction)) =>
        if whole == "" || !AllDigits(whole) || !AllDigits(fraction) then None
        else Some(Parts(negative, whole, fraction, exponent))
  }

  // ----- Evaluation -----

  function TrimZeroes(s: string): (r: string)
    ensures AllDigits(s) ==> AllDigits(r)
    ensures r != "" ==> r[0] != '0'
    ensures |r| <= |s|
  {
    if s != "" && s[0] == '0' then TrimZeroes(s[1..]) else s
  }

  /** The final multiplication, each step checked against the type that holds it. */
  function CheckedProduct(integer: nat, power: nat): Option<int> {
    if integer > U64_MAX || power > U64_MAX || integer * power > U64_MAX then None
    else if integer * power > MAX_SAFE_INTEGER then None
    else InRange(integer * power, I64_MIN, I64_MAX)
  }

  /** The product of a digit string and a power of ten. */
  function Magnitude(digits: string, trailingZeroes: nat): (r: Option<int>)
    requires AllDigits(digits)
    ensures r.Some? ==> 0 <= r.value <= MAX_SAFE_INTEGER
  {
    var trimmed := TrimZeroes(digits);
    if trimmed == "" then Some(0)
    else if |trimmed| + trailingZeroes > U64_MAX || |trimmed| + trailingZeroes > SAFE_DIGITS then None
    else if trailingZeroes > U32_MAX then None
    else CheckedProduct(DigitsValue(trimmed), Pow10(trailingZeroes))
  }

  function Evaluate(parts: Parts): Option<int>
    requires AllDigits(parts.whole) && AllDigits(parts.fraction)
  {
    var digits := parts.whole + parts.fraction;
    var fractionLen := InRange(|parts.fraction|, I64_MIN, I64_MAX);
    if |digits| > U64_MAX || fractionLen.None? then None
    else
      var scale := InRange(fractionLen.value - parts.exponent, I64_MIN, I64_MAX);
      if scale.None? then None
      else if scale.value > 0 then
        if scale.value > |digits| then
          if AllZeroes(digits) then Some(0) else None
        else
          var end := |digits| - scale.value;
          if AllZeroes(digits[end..]) then Signed(parts.negative, Magnitude(digits[..end], 0)) else None
      else
        var zeroes := InRange(-scale.value, I64_MIN, I64_MAX);
        if zeroes.None? then None
        else Signed(parts.negative, Magnitude(digits, zeroes.value))
  }

  function Signed(negative: bool, magnitude: Option<int>): Option<int> {
    match magnitude
    case None => None
    case Some(m) => if negative then InRange(-m, I64_MIN, I64_MAX) else Some(m)
  }

  function ParseIntegerHeaderValue(text: string): Option<int> {
    match SplitParts(text)
    case None => None
    case Some(parts) => Evaluate(parts)
  }

  // ----- What a header value means -----

  datatype Sign = NoSign | Plus | Minus {
    function Text(): string {
      match this case NoSign => "" case Plus => "+" case Minus => "-"
    }
  }

  datatype Exponent = Exponent(marker: char, sign: Sign, digits: string) {
    predicate WellFormed() { (marker == 'e' || marker == 'E') && digits != "" && AllDigits(digits) }

    function Text(): string { [marker] + sign.Text() + digits }

    function Value(): int
      requires WellFormed()
    {
      Negated(sign == Minus, DigitsValue(digits))
    }
  }

  /** A numeral of the header grammar; an empty fraction stands for no decimal point. */
  datatype Numeral = Numeral(sign: Sign, whole: string, fraction: string, exponent: Option<Exponent>) {
    predicate WellFormed() {
      && whole != "" && AllDigits(whole) && AllDigits(fraction)
      && (exponent.Some? ==> exponent.value.WellFormed())
    }

    function Mantissa(): string { whole + if fraction == "" then "" else "." + fraction }

    function Unsigned(): string { Mantissa() + if exponent.Some? then exponent.value.Text() else "" }

    function Text(): string { sign.Text() + Unsigned() }

    function ExponentValue(): int
      requires WellFormed()
    {
      if exponent.Some? then exponent.value.Value() else 0
    }

    /** The exponent, the lengths and the scale fit the 64-bit types that hold them. */
    predicate FitsMachine()
      requires WellFormed()
    {
      && -0x8000_0000_0000_0000 <= ExponentValue() <= 0x7FFF_FFFF_FFFF_FFFF
      && |fraction| <= 0x7FFF_FFFF_FFFF_FFFF
      && |whole| + |fraction| <= 0xFFFF_FFFF_FFFF_FFFF
      && |fraction| - ExponentValue() <= 0x7FFF_FFFF_FFFF_FFFF
    }

    /** The exact rational number written by the numeral is the integer `v`. */
    predicate Equals(v: int)
      requires WellFormed()
    {
      RationalEquals(sign == Minus, whole + fraction, |fraction| - ExponentValue(), v)
    }
  }

  /** (+/- digits) * 10^(-scale) == v, without leaving the integers. */
  predicate RationalEquals(negative: bool, digits: string, scale: int, v: int)
    requires AllDigits(digits)
  {
    var d := Negated(negative, DigitsValue(digits));
    if scale >= 0 then v * Pow10(scale) == d else v == d * Pow10(-scale)
  }

  /** `text` is a numeral whose exact value is the safe integer `v`. */
  ghost predicate DenotesSafeInteger(text: string, v: int) {
    && -0x1F_FFFF_FFFF_FFFF <= v <= 0x1F_FFFF_FFFF_FFFF
    && exists n: Numeral :: n.WellFormed() && n.Text() == text && n.FitsMachine() && n.Equals(v)
  }

  // ----- Digits and powers -----

  lemma {:induction false} PrependDigit(c: char, s: string)
    requires IsDigit(c) && AllDigits(s)
    ensures AllDigits([c] + s)
    ensures DigitsValue([c] + s) == (c as int - '0' as int) * Pow10(|s|) + DigitsValue(s)
  {
    if s == "" {
      assert [c] + s == [c];
      assert [c][..0] == "";
    } else {
      var front := s[..|s| - 1];
      PrependDigit(c, front);
      assert ([c] + s)[..|s|] == [c] + front;
      ScaleByTen(c as int - '0' as int, Pow10(|front|));
    }
  }

  lemma ScaleByTen(digit: int, power: nat)
    ensures digit * (10 * power) == 10 * (digit * power)
  {
  }

  lemma {:induction false} TrimZeroesValue(s: string)
    requires AllDigits(s)
    ensures AllDigits(TrimZeroes(s))
    ensures DigitsValue(TrimZeroes(s)) == DigitsValue(s)
  {
    if s != "" && s[0] == '0' {
      TrimZeroesValue(s[1..]);
      PrependDigit('0', s[1..]);
      assert s == ['0'] + s[1..];
    }
  }

  lemma {:induction false} ConcatValue(a: string, b: string)
    requires AllDigits(a) && AllDigits(b)
    ensures AllDigits(a + b)
    ensures DigitsValue(a + b) == DigitsValue(a) * Pow10(|b|) + DigitsValue(b)
  {
    if b == "" {
      assert a + b == a;
    } else {
      var front := b[..|b| - 1];
      ConcatValue(a, front);
      assert (a + b)[..|a + b| - 1] == a + front;
      assert DigitsValue(a) * Pow10(|b|) == 10 * (DigitsValue(a) * Pow10(|front|));
    }
  }

  lemma {:induction false} ValueBound(s: string)
    requires AllDigits(s)
    ensures DigitsValue(s) < Pow10(|s|)
  {
    if s != "" {
      ValueBound(s[..|s| - 1]);
    }
  }

  lemma {:induction false} ZeroIffAllZeroes(s: string)
    requires AllDigits(s)
    ensures DigitsValue(s) == 0 <==> AllZeroes(s)
  {
    if s != "" {
      var front := s[..|s| - 1];
      ZeroIffAllZeroes(front);
      if AllZeroes(s) {
        assert AllZeroes(front);
      }
      assert IsDigit(s[|s| - 1]);
    }
  }

  /** A digit string without leading zero is at least the power of ten of its length. */
  lemma LeadingDigitBound(s: string)
    requires AllDigits(s) && s != "" && s[0] != '0'
    ensures DigitsValue(s) >= Pow10(|s| - 1)
  {
    assert s == [s[0]] + s[1..];
    PrependDigit(s[0], s[1..]);
    MulMonotone(1, s[0] as int - '0' as int, Pow10(|s| - 1));
  }

  lemma MulMonotone(a: nat, b: nat, c: nat)
    requires a <= b
    ensures a * c <= b * c
  {
  }

  lemma {:induction false} PowMonotone(m: nat, n: nat)
    requires m <= n
    ensures Pow10(m) <= Pow10(n)
  {
    if m < n {
      PowMonotone(m, n - 1);
    }
  }

  lemma {:induction false} PowAdd(m: nat, n: nat)
    ensures Pow10(m + n) == Pow10(m) * Pow10(n)
  {
    if n > 0 {
      PowAdd(m, n - 1);
      assert Pow10(m + n) == 10 * (Pow10(m) * Pow10(n - 1));
    }
  }

  lemma PowSixteen()
    ensures Pow10(16) == 10_000_000_000_000_000
  {
    assert Pow10(4) == 10_000;
    assert Pow10(8) == 100_000_000 by { PowAdd(4, 4); }
    PowAdd(8, 8);
  }

  // ----- Evaluation is exact -----

  lemma LongProductIsUnsafe(trimmed: string, zeroes: nat)
    requires AllDigits(trimmed) && trimmed != "" && trimmed[0] != '0'
    requires |trimmed| + zeroes > SAFE_DIGITS
    ensures DigitsValue(trimmed) * Pow10(zeroes) > MAX_SAFE_INTEGER
  {
    LeadingDigitBound(trimmed);
    PowAdd(|trimmed| - 1, zeroes);
    PowMonotone(16, |trimmed| - 1 + zeroes);
    MulMonotone(Pow10(|trimmed| - 1), DigitsValue(trimmed), Pow10(zeroes));
    PowSixteen();
  }

  lemma ShortProductFits(trimmed: string, zeroes: nat)
    requires AllDigits(trimmed) && |trimmed| + zeroes <= SAFE_DIGITS
    ensures DigitsValue(trimmed) < U64_MAX && Pow10(zeroes) < U64_MAX
    ensures DigitsValue(trimmed) * Pow10(zeroes) < U64_MAX
  {
    ValueBound(trimmed);
    PowAdd(|trimmed|, zeroes);
    PowMonotone(|trimmed| + zeroes, 16);
    PowMonotone(zeroes, 16);
    PowMonotone(|trimmed|, 16);
    MulMonotone(DigitsValue(trimmed), Pow10(|trimmed|), Pow10(zeroes));
    PowSixteen();
  }

  lemma CheckedProductExact(integer: nat, power: nat, m: int)
    requires integer * power > MAX_SAFE_INTEGER || (integer < U64_MAX && power < U64_MAX)
    ensures CheckedProduct(integer, power) == Some(m) <==> m == integer * power && m <= MAX_SAFE_INTEGER
  {
  }

  /** The length guard and the bound reject exactly the unsafe products; no checked step fails. */
  lemma MagnitudeExact(digits: string, zeroes: nat, m: int)
    requires AllDigits(digits)
    ensures Magnitude(digits, zeroes) == Some(m)
            <==> m == DigitsValue(digits) * Pow10(zeroes) && m <= MAX_SAFE_INTEGER
  {
    TrimZeroesValue(digits);
    var trimmed := TrimZeroes(digits);
    if trimmed == "" {
      assert DigitsValue(digits) == 0;
      assert DigitsValue(digits) * Pow10(zeroes) == 0;
    } else if |trimmed| + zeroes > SAFE_DIGITS {
      LongProductIsUnsafe(trimmed, zeroes);
      assert Magnitude(digits, zeroes).None?;
    } else {
      ShortProductFits(trimmed, zeroes);
      CheckedProductExact(DigitsValue(trimmed), Pow10(zeroes), m);
      assert Magnitude(digits, zeroes) == CheckedProduct(DigitsValue(trimmed), Pow10(zeroes));
    }
  }

  /** Dividing a digit string by a power of ten leaves an integer only past zero digits. */
  lemma ShiftRight(digits: string, scale: nat, v: nat)
    requires AllDigits(digits) && scale <= |digits|
    ensures AllDigits(digits[..|digits| - scale])
    ensures v * Pow10(scale) == DigitsValue(digits)
            <==> AllZeroes(digits[|digits| - scale..]) && v == DigitsValue(digits[..|digits| - scale])
  {
    var high, low := digits[..|digits| - scale], digits[|digits| - scale..];
    assert digits == high + low;
    ConcatValue(high, low);
    ValueBound(low);
    ZeroIffAllZeroes(low);
    QuotientUnique(v, DigitsValue(high), Pow10(scale), DigitsValue(low));
  }

  lemma QuotientUnique(v: nat, q: nat, d: nat, r: nat)
    requires r < d
    ensures v * d == q * d + r <==> r == 0 && v == q
  {
    if v > q {
      MulMonotone(q + 1, v, d);
    } else if v < q {
      MulMonotone(v + 1, q, d);
    }
  }

  /** `digits` read as a number, `scale` of its digits behind the decimal point, is the safe integer `v`. */
  predicate SafeValue(negative: bool, digits: string, scale: int, v: int)
    requires AllDigits(digits)
  {
    RationalEquals(negative, digits, scale, v) && -MAX_SAFE_INTEGER <= v <= MAX_SAFE_INTEGER
  }

  lemma SignMovesAcross(negative: bool, x: int, p: nat, d: int)
    ensures x * p == Negated(negative, d) <==> Negated(negative, x) * p == d
    ensures x == Negated(negative, d) * p <==> Negated(negative, x) == d * p
  {
    if negative {
      assert (-x) * p == -(x * p);
      assert (-d) * p == -(d * p);
    }
  }

  lemma NegativeProduct(x: int, p: nat)
    requires x < 0 && p > 0
    ensures x * p < 0
  {
  }

  lemma {:induction false} PowPositive(n: nat)
    ensures Pow10(n) > 0
  {
    if n > 0 {
      PowPositive(n - 1);
    }
  }

  lemma ScaledDownExact(negative: bool, digits: string, scale: nat, v: int)
    requires AllDigits(digits) && 0 < scale <= |digits|
    ensures SafeValue(negative, digits, scale, v)
            <==> && AllZeroes(digits[|digits| - scale..])
                 && Signed(negative, Magnitude(digits[..|digits| - scale], 0)) == Some(v)
  {
    var u := Negated(negative, v);
    SignMovesAcross(negative, v, Pow10(scale), DigitsValue(digits));
    MagnitudeExact(digits[..|digits| - scale], 0, u);
    if u >= 0 {
      ShiftRight(digits, scale, u);
    } else {
      PowPositive(scale);
      NegativeProduct(u, Pow10(scale));
    }
    SignedSome(negative, Magnitude(digits[..|digits| - scale], 0), v);
  }

  lemma ScaledPastExact(negative: bool, digits: string, scale: nat, v: int)
    requires AllDigits(digits) && scale > |digits|
    ensures SafeValue(negative, digits, scale, v) <==> AllZeroes(digits) && v == 0
  {
    var u := Negated(negative, v);
    SignMovesAcross(negative, v, Pow10(scale), DigitsValue(digits));
    ZeroIffAllZeroes(digits);
    ValueBound(digits);
    PowMonotone(|digits|, scale);
    if u >= 0 {
      QuotientUnique(u, 0, Pow10(scale), DigitsValue(digits));
    } else {
      NegativeProduct(u, Pow10(scale));
    }
  }

  lemma RationalUp(negative: bool, digits: string, scale: int, v: int)
    requires AllDigits(digits) && scale <= 0
    ensures RationalEquals(negative, digits, scale, v)
            <==> Negated(negative, v) == DigitsValue(digits) * Pow10(-scale)
  {
    SignMovesAcross(negative, v, Pow10(-scale), DigitsValue(digits));
    if scale == 0 {
      assert Pow10(0) == 1;
    }
  }

  lemma ScaledUpExact(negative: bool, digits: string, scale: int, v: int)
    requires AllDigits(digits) && scale <= 0
    ensures SafeValue(negative, digits, scale, v) <==> Signed(negative, Magnitude(digits, -scale)) == Some(v)
  {
    RationalUp(negative, digits, scale, v);
    MagnitudeExact(digits, -scale, Negated(negative, v));
    SignedSome(negative, Magnitude(digits, -scale), v);
  }

  lemma SignedSome(negative: bool, magnitude: Option<int>, v: int)
    requires magnitude.Some? ==> 0 <= magnitude.value <= MAX_SAFE_INTEGER
    ensures Signed(negative, magnitude) == Some(v) <==> magnitude == Some(Negated(negative, v))
  {
  }

  lemma EvaluateExact(parts: Parts, v: int)
    requires AllDigits(parts.whole) && AllDigits(parts.fraction)
    requires I64_MIN <= parts.exponent <= I64_MAX
    ensures Evaluate(parts) == Some(v)
            <==> && |parts.fraction| <= I64_MAX
                 && |parts.whole| + |parts.fraction| <= U64_MAX
                 && |parts.fraction| - parts.exponent <= I64_MAX
                 && SafeValue(parts.negative, parts.whole + parts.fraction, |parts.fraction| - parts.exponent, v)
  {
    var digits := parts.whole + parts.fraction;
    var scale := |parts.fraction| - parts.exponent;
    if scale > |digits| {
      ScaledPastExact(parts.negative, digits, scale, v);
    } else if scale > 0 {
      ScaledDownExact(parts.negative, digits, scale, v);
    } else {
      ScaledUpExact(parts.negative, digits, scale, v);
    }
  }

  // ----- The grammar is recognised exactly -----

  function PartsOf(n: Numeral): Parts
    requires n.WellFormed()
  {
    Parts(n.sign == Minus, n.whole, n.fraction, n.ExponentValue())
  }

  function SignOf(s: string): Sign {
    if s != "" && s[0] == '-' then Minus else if s != "" && s[0] == '+' then Plus else NoSign
  }

  /** A string that starts with a digit has no sign of its own, so a sign in front is read back. */
  lemma SignReadBack(sign: Sign, rest: string)
    requires rest != "" && IsDigit(rest[0])
    ensures SignOf(sign.Text() + rest) == sign
    ensures sign == NoSign ==> sign.Text() + rest == rest
    ensures sign != NoSign ==> (sign.Text() + rest)[1..] == rest
  {
  }

  predicate SignedDigits(s: string, sign: Sign, digits: string) {
    digits != "" && AllDigits(digits) && s == sign.Text() + digits
  }

  /** The reading of a signed digit string is unique, and `ParseI64` finds it. */
  lemma ParseI64Reads(s: string, sign: Sign, digits: string)
    requires SignedDigits(s, sign, digits)
    ensures ParseI64(s) == InRange(Negated(sign == Minus, DigitsValue(digits)), I64_MIN, I64_MAX)
  {
    SignReadBack(sign, digits);
  }

  lemma ParseI64Splits(s: string) returns (sign: Sign, digits: string)
    requires ParseI64(s).Some?
    ensures SignedDigits(s, sign, digits)
  {
    sign := SignOf(s);
    digits := if sign == NoSign then s else s[1..];
    assert s == sign.Text() + digits;
  }

  /** The first marker separates the mantissa from the exponent text. */
  lemma MarkerSplits(mantissa: string, marker: char, tail: string)
    requires marker in {'e', 'E'} && forall j | 0 <= j < |mantissa| :: mantissa[j] !in {'e', 'E'}
    ensures SplitExponent(mantissa + [marker] + tail)
            == match ParseI64(tail) case None => None case Some(x) => Some((mantissa, x))
  {
    var s := mantissa + [marker] + tail;
    assert forall j | 0 <= j < |mantissa| :: s[j] == mantissa[j];
    assert s[|mantissa|] == marker;
    assert FirstIndex(s, {'e', 'E'}) == |mantissa|;
    assert s[|mantissa| + 1..] == tail;
    assert s[..|mantissa|] == mantissa;
  }

  lemma MantissaHasNoMarker(n: Numeral)
    requires n.WellFormed()
    ensures forall j | 0 <= j < |n.Mantissa()| :: n.Mantissa()[j] !in {'e', 'E'}
  {
    assert n.fraction == "" ==> n.Mantissa() == n.whole;
  }

  lemma ExponentTextReads(e: Exponent)
    requires e.WellFormed() && I64_MIN <= e.Value() <= I64_MAX
    ensures e.Text() == [e.marker] + (e.sign.Text() + e.digits)
    ensures ParseI64(e.sign.Text() + e.digits) == Some(e.Value())
  {
    ParseI64Reads(e.sign.Text() + e.digits, e.sign, e.digits);
  }

  lemma ExponentSplits(n: Numeral)
    requires n.WellFormed() && I64_MIN <= n.ExponentValue() <= I64_MAX
    ensures SplitExponent(n.Unsigned()) == Some((n.Mantissa(), n.ExponentValue()))
  {
    var mantissa := n.Mantissa();
    MantissaHasNoMarker(n);
    if n.exponent.Some? {
      var e := n.exponent.value;
      ExponentTextReads(e);
      MarkerSplits(mantissa, e.marker, e.sign.Text() + e.digits);
      Reassociate(mantissa, [e.marker], e.sign.Text() + e.digits);
    } else {
      assert n.Unsigned() == mantissa;
    }
  }

  lemma Reassociate(a: string, b: string, c: string)
    ensures a + (b + c) == a + b + c
  {
  }

  lemma FractionSplits(n: Numeral)
    requires n.WellFormed()
    ensures SplitFraction(n.Mantissa()) == Some((n.whole, n.fraction))
  {
    var s := n.Mantissa();
    assert forall j | 0 <= j < |n.whole| :: s[j] == n.whole[j];
    if n.fraction == "" {
      assert s == n.whole;
    } else {
      assert s[|n.whole|] == '.';
      assert FirstIndex(s, {'.'}) == |n.whole|;
      assert s[|n.whole| + 1..] == n.fraction;
      assert s[..|n.whole|] == n.whole;
    }
  }

  lemma NumeralToParts(n: Numeral)
    requires n.WellFormed() && I64_MIN <= n.ExponentValue() <= I64_MAX
    ensures SplitParts(n.Text()) == Some(PartsOf(n))
  {
    assert n.Unsigned()[0] == n.whole[0];
    SignReadBack(n.sign, n.Unsigned());
    ExponentSplits(n);
    FractionSplits(n);
  }

  lemma ExponentJoins(s: string) returns (e: Option<Exponent>)
    requires SplitExponent(s).Some?
    ensures e.Some? ==> e.value.WellFormed()
    ensures SplitExponent(s).value.1 == if e.Some? then e.value.Value() else 0
    ensures I64_MIN <= SplitExponent(s).value.1 <= I64_MAX
    ensures s == SplitExponent(s).value.0 + if e.Some? then e.value.Text() else ""
  {
    var i := FirstIndex(s, {'e', 'E'});
    if i == |s| {
      e := None;
    } else {
      e := ExponentOfTail(s[i], s[i + 1..]);
      assert s == s[..i] + ([s[i]] + s[i + 1..]);
    }
  }

  lemma ExponentOfTail(marker: char, tail: string) returns (e: Option<Exponent>)
    requires marker in {'e', 'E'} && ParseI64(tail).Some?
    ensures e.Some? && e.value.WellFormed() && e.value.Text() == [marker] + tail
    ensures I64_MIN <= e.value.Value() == ParseI64(tail).value <= I64_MAX
  {
    var sign, digits := ParseI64Splits(tail);
    ParseI64Reads(tail, sign, digits);
    e := Some(Exponent(marker, sign, digits));
    assert [marker] + sign.Text() + digits == [marker] + (sign.Text() + digits);
  }

  lemma FractionJoins(s: string)
    requires SplitFraction(s).Some?
    ensures s == SplitFraction(s).value.0
                 + if SplitFraction(s).value.1 == "" then "" else "." + SplitFraction(s).value.1
  {
    var i := FirstIndex(s, {'.'});
    if i < |s| {
      assert s == s[..i] + ([s[i]] + s[i + 1..]);
      assert [s[i]] == ".";
    }
  }

  lemma PartsToNumeral(text: string) returns (n: Numeral)
    requires SplitParts(text).Some?
    ensures n.WellFormed() && I64_MIN <= n.ExponentValue() <= I64_MAX
    ensures n.Text() == text && PartsOf(n) == SplitParts(text).value
  {
    var sign := SignOf(text);
    var value := if sign == NoSign then text else text[1..];
    assert text == sign.Text() + value;
    var e := ExponentJoins(value);
    var mantissa := SplitExponent(value).value.0;
    FractionJoins(mantissa);
    var (whole, fraction) := SplitFraction(mantissa).value;
    n := Numeral(sign, whole, fraction, e);
    assert n.Mantissa() == mantissa;
    assert n.Unsigned() == value;
  }

  // ----- Main results -----

  lemma EvaluateNumeral(n: Numeral, v: int)
    requires n.WellFormed() && I64_MIN <= n.ExponentValue() <= I64_MAX
    ensures Evaluate(PartsOf(n)) == Some(v)
            <==> n.FitsMachine() && n.Equals(v) && -MAX_SAFE_INTEGER <= v <= MAX_SAFE_INTEGER
  {
    EvaluateExact(PartsOf(n), v);
  }

  /** Parsing accepts exactly the numerals whose exact rational value is a safe integer. */
  lemma ParseExact(text: string, v: int)
    ensures ParseIntegerHeaderValue(text) == Some(v) <==> DenotesSafeInteger(text, v)
  {
    if SplitParts(text).Some? {
      var n := PartsToNumeral(text);
      EvaluateNumeral(n, v);
    }
    if DenotesSafeInteger(text, v) {
      var n: Numeral :| n.WellFormed() && n.Text() == text && n.FitsMachine() && n.Equals(v);
      NumeralToParts(n);
      EvaluateNumeral(n, v);
    }
  }

  /** The decimal digits of `n`, as `to_string` prints them. */
  function Decimal(n: nat): string {
    if n < 10 then [('0' as int + n) as char]
    else Decimal(n / 10) + [('0' as int + n % 10) as char]
  }

  function PrintInteger(v: int): string { if v < 0 then "-" + Decimal(-v) else Decimal(v) }

  lemma {:induction false} DecimalValue(n: nat)
    ensures Decimal(n) != "" && AllDigits(Decimal(n))
    ensures DigitsValue(Decimal(n)) == n
    ensures n > 0 ==> Decimal(n)[0] != '0'
  {
    if n < 10 {
      assert Decimal(n)[..0] == "";
    } else {
      DecimalValue(n / 10);
      assert Decimal(n)[..|Decimal(n)| - 1] == Decimal(n / 10);
    }
  }

  lemma DecimalLength(n: nat)
    requires n <= U64_MAX
    ensures |Decimal(n)| <= 20
  {
    if |Decimal(n)| > 20 {
      DecimalValue(n);
      LeadingDigitBound(Decimal(n));
      PowMonotone(20, |Decimal(n)| - 1);
      PowAdd(16, 4);
      PowSixteen();
      assert false;
    }
  }

  /** Parsing the decimal print of a 64-bit integer gives it back when it is safe and refuses it otherwise. */
  lemma PrintParse(v: int)
    requires -U64_MAX <= v <= U64_MAX
    ensures ParseIntegerHeaderValue(PrintInteger(v))
            == if -MAX_SAFE_INTEGER <= v <= MAX_SAFE_INTEGER then Some(v) else None
  {
    var digits := Decimal(if v < 0 then -v else v);
    DecimalValue(if v < 0 then -v else v);
    DecimalLength(if v < 0 then -v else v);
    var n := Numeral(if v < 0 then Minus else NoSign, digits, "", None);
    assert n.Text() == PrintInteger(v);
    assert n.FitsMachine();
    NumeralToParts(n);
    PlainNumeralEquals(n, v);
    var r := Evaluate(PartsOf(n));
    EvaluateNumeral(n, v);
    if r.Some? {
      EvaluateNumeral(n, r.value);
      PlainNumeralEquals(n, r.value);
    }
  }

  lemma PlainNumeralEquals(n: Numeral, v: int)
    requires n.WellFormed() && n.fraction == "" && n.exponent == None
    ensures n.Equals(v) <==> v == Negated(n.sign == Minus, DigitsValue(n.whole))
  {
    assert n.whole + n.fraction == n.whole;
    assert Pow10(0) == 1;
  }
}
