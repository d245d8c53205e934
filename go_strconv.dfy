/**
 * The parts of Go's `strconv` package the parser relies on: `Atoi` (with
 * the 64-bit `int` of the platforms the tool runs on, through `ParseInt`
 * and `ParseUint`) and `ParseFloat`
 * (decimal syntax, valued exactly over the reals). The parser always
 * discards the error result, so both are total functions here that give
 * the value Go returns alongside its error.
 */
module GoStrconv {
  import opened Wrappers

  const MaxInt: int := 0x7FFF_FFFF_FFFF_FFFF
  const MinInt: int := -0x8000_0000_0000_0000

  predicate IsDigit(c: char) {
    '0' <= c <= '9'
  }

  predicate AllDigits(s: string) {
    forall i :: 0 <= i < |s| ==> IsDigit(s[i])
  }

  /** The value of a string of decimal digits, most significant first. */
  function DigitsValue(s: string): nat
    requires AllDigits(s)
  {
    if s == [] then 0 else DigitsValue(s[..|s| - 1]) * 10 + (s[|s| - 1] as int - '0' as int)
  }

  /** Appending a digit multiplies the value by ten and adds the digit. */
  lemma DigitsValueSnoc(s: string, c: char)
    requires AllDigits(s) && IsDigit(c)
    ensures AllDigits(s + [c])
    ensures DigitsValue(s + [c]) == DigitsValue(s) * 10 + (c as int - '0' as int)
  {
    assert (s + [c])[..|s|] == s;
  }

  /** The text after one leading sign, if any: what `ParseInt` hands to `ParseUint`. */
  function Magnitude(s: string): string {
    if |s| > 0 && (s[0] == '+' || s[0] == '-') then s[1..] else s
  }

  /** Optional sign first, then at least one digit: the syntax `Atoi` accepts. */
  predicate IsIntegerText(s: string) {
    |Magnitude(s)| > 0 && AllDigits(Magnitude(s))
  }

  /** The mathematical value of an integer text, before any range check. */
  function IntegerValue(s: string): int
    requires IsIntegerText(s)
  {
    if s[0] == '-' then -(DigitsValue(s[1..]) as int)
    else if s[0] == '+' then DigitsValue(s[1..])
    else DigitsValue(s)
  }

  /** What `ParseInt` returns with its range error: the nearest 64-bit value. */
  function Clamp(n: int): (r: int)
    ensures MinInt <= r <= MaxInt
    ensures MinInt <= n <= MaxInt ==> r == n
    ensures n > MaxInt ==> r == MaxInt
    ensures n < MinInt ==> r == MinInt
  {
    if n > MaxInt then MaxInt else if n < MinInt then MinInt else n
  }

  const MaxUint64: int := 0xFFFF_FFFF_FFFF_FFFF

  /** The value of the run of digits `s` starts with (0 when there is none). */
  function LeadingValue(s: string): nat {
    LeadingDigitsShape(s);
    DigitsValue(s[..LeadingDigits(s)])
  }

  /** The three outcomes of `strconv.ParseUint`. */
  datatype UintResult = UintValue(value: nat) | UintRange | UintSyntax

  /**
   * `strconv.ParseUint(s, 10, 64)`. Go's loop stops with a range error at
   * the first digit that takes the value past 2^64 - 1, before it looks at
   * any later character, and with a syntax error at the first character
   * that is not a digit, or at once for the empty text. The value of a run
   * of digits only grows as digits are added (`DigitsValuePrefix`), so the
   * range error comes exactly when the whole leading run exceeds 2^64 - 1.
   */
  function ParseUint(s: string): UintResult {
    if LeadingValue(s) > MaxUint64 then UintRange
    else if s == [] || LeadingDigits(s) < |s| then UintSyntax
    else UintValue(LeadingValue(s))
  }

  /**
   * `strconv.Atoi` on a 64-bit platform, with the error dropped, which is
   * `ParseInt(s, 10, 0)`: a syntax error gives 0, a range error from
   * `ParseUint` the bound of the sign, and a magnitude the signed value
   * clamped to 64 bits. Go's fast path for texts under 19 bytes gives the
   * same values.
   */
  function Atoi(s: string): (n: int)
    ensures MinInt <= n <= MaxInt
  {
    var neg := |s| > 0 && s[0] == '-';
    match ParseUint(Magnitude(s))
    case UintSyntax => 0
    case UintRange => if neg then MinInt else MaxInt
    case UintValue(u) => Clamp(if neg then -(u as int) else u)
  }

  /** A prefix of a run of digits has at most the value of the whole run. */
  lemma {:induction false} DigitsValuePrefix(s: string, j: int)
    requires AllDigits(s) && 0 <= j <= |s|
    ensures AllDigits(s[..j])
    ensures DigitsValue(s[..j]) <= DigitsValue(s)
    decreases |s|
  {
    if j == |s| {
      assert s[..j] == s;
    } else {
      var s' := s[..|s| - 1];
      assert AllDigits(s');
      assert s[..j] == s'[..j];
      DigitsValuePrefix(s', j);
    }
  }

  /** An integer text reads as its value clamped to 64 bits, and exactly as its value in range. */
  lemma AtoiInteger(s: string)
    requires IsIntegerText(s)
    ensures Atoi(s) == Clamp(IntegerValue(s))
    ensures MinInt <= IntegerValue(s) <= MaxInt ==> Atoi(s) == IntegerValue(s)
  {
    var d := Magnitude(s);
    LeadingDigitsAll(d);
    assert d[..|d|] == d;
    assert LeadingValue(d) == DigitsValue(d);
    assert s[0] == '-' || s[0] == '+' ==> d == s[1..];
  }

  /**
   * Text that is not an integer reads as 0, except that a leading run of
   * digits beyond 2^64 - 1 gives the bound of the sign, whatever follows it.
   */
  lemma AtoiMalformed(s: string)
    requires !IsIntegerText(s)
    ensures LeadingValue(Magnitude(s)) <= MaxUint64 ==> Atoi(s) == 0
    ensures LeadingValue(Magnitude(s)) > MaxUint64 ==>
      Atoi(s) == if |s| > 0 && s[0] == '-' then MinInt else MaxInt
  {
    var d := Magnitude(s);
    LeadingDigitsShape(d);
    if LeadingDigits(d) == |d| {
      assert d[..|d|] == d;
    }
  }

  /**
   * Go's early return: once the digits read so far are worth more than
   * 2^64 - 1, `ParseUint` reports a range error whatever comes after them.
   */
  lemma ParseUintEarlyStop(s: string, j: int)
    requires 0 <= j <= |s| && AllDigits(s[..j]) && DigitsValue(s[..j]) > MaxUint64
    ensures ParseUint(s) == UintRange
  {
    LeadingDigitsShape(s);
    var k := LeadingDigits(s);
    assert s[..k][..j] == s[..j];
    DigitsValuePrefix(s[..k], j);
  }

  /** A run of `n` nines is worth 10^n - 1. */
  lemma {:induction false} NinesValue(s: string, n: nat)
    requires |s| == n && forall i :: 0 <= i < |s| ==> s[i] == '9'
    ensures AllDigits(s) && DigitsValue(s) == Pow10(n) - 1
  {
    if n > 0 {
      NinesValue(s[..n - 1], n - 1);
    }
  }

  /** Ten to the power `n`. */
  function Pow10(n: nat): nat {
    if n == 0 then 1 else 10 * Pow10(n - 1)
  }

  /** Twenty nines overflow before the trailing letter is read: `Atoi` gives `MaxInt`, not 0. */
  lemma AtoiOverflowExample()
    ensures Atoi("99999999999999999999x") == MaxInt
  {
    var s := "99999999999999999999x";
    assert s[..20] == "99999999999999999999";
    NinesValue(s[..20], 20);
    assert Pow10(4) == 10000;
    assert Pow10(8) == 100000000;
    assert Pow10(12) == 1000000000000;
    assert Pow10(16) == 10000000000000000;
    assert Pow10(20) == 100000000000000000000;
    ParseUintEarlyStop(s, 20);
  }

  /** An integer text holds only a sign and digits: no space, bracket or newline. */
  lemma IntegerTextChars(s: string)
    requires IsIntegerText(s)
    ensures ' ' !in s && ']' !in s && '\n' !in s
  {
    forall i | 0 <= i < |s|
      ensures s[i] == '+' || s[i] == '-' || IsDigit(s[i])
    {
      if i > 0 && (s[0] == '+' || s[0] == '-') {
        assert s[i] == Magnitude(s)[i - 1];
      }
    }
  }

  /** The decimal digit for `d`. */
  function DigitChar(d: nat): char
    requires d < 10
  {
    ('0' as int + d) as char
  }

  /** The decimal digits of `n`, without leading zeros. */
  function DigitsOf(n: nat): (s: string)
    ensures |s| >= 1 && AllDigits(s)
    ensures n > 0 ==> s[0] != '0'
  {
    if n < 10 then [DigitChar(n)] else DigitsOf(n / 10) + [DigitChar(n % 10)]
  }

  /** `strconv.Itoa`, the inverse partner of `Atoi`. */
  function Itoa(n: int): (s: string)
    ensures s != [] && forall i :: 0 <= i < |s| ==> s[i] == '-' || IsDigit(s[i])
  {
    if n < 0 then "-" + DigitsOf(-n) else DigitsOf(n)
  }

  lemma {:induction false} DigitsValueOf(n: nat)
    ensures DigitsValue(DigitsOf(n)) == n
    decreases n
  {
    var s := DigitsOf(n);
    if n >= 10 {
      DigitsValueOf(n / 10);
      assert s[..|s| - 1] == DigitsOf(n / 10);
    }
  }

  /** `Itoa` writes an integer text of exactly the value it was given. */
  lemma ItoaValue(n: int)
    ensures IsIntegerText(Itoa(n))
    ensures IntegerValue(Itoa(n)) == n
  {
    if n < 0 {
      DigitsValueOf(-n);
      assert Itoa(n)[1..] == DigitsOf(-n);
    } else {
      DigitsValueOf(n);
    }
  }

  /** `Atoi` reads back every 64-bit integer that `Itoa` writes. */
  lemma AtoiItoa(n: int)
    requires MinInt <= n <= MaxInt
    ensures Atoi(Itoa(n)) == n
  {
    ItoaValue(n);
    AtoiInteger(Itoa(n));
  }

  /** The number of leading decimal digits of `s`. */
  function LeadingDigits(s: string): nat {
    if s != [] && IsDigit(s[0]) then LeadingDigits(s[1..]) + 1 else 0
  }

  /** `LeadingDigits` counts a run of digits that ends at the end or at a non-digit. */
  lemma {:induction false} LeadingDigitsShape(s: string)
    ensures LeadingDigits(s) <= |s| && AllDigits(s[..LeadingDigits(s)])
    ensures LeadingDigits(s) < |s| ==> !IsDigit(s[LeadingDigits(s)])
    decreases |s|
  {
    if s != [] && IsDigit(s[0]) {
      LeadingDigitsShape(s[1..]);
      var k := LeadingDigits(s[1..]);
      assert s[..k + 1] == [s[0]] + s[1..][..k];
    }
  }

  /** The value of the digits after a decimal point, `0.d1d2...`. */
  function FractionValue(s: string): real
    requires AllDigits(s)
  {
    if s == [] then 0.0 else ((s[0] as int - '0' as int) as real + FractionValue(s[1..])) / 10.0
  }

  /** `x` times ten to the power `e`. */
  function Scale10(x: real, e: int): real
    decreases if e >= 0 then e else -e
  {
    if e == 0 then x else if e > 0 then Scale10(x, e - 1) * 10.0 else Scale10(x, e + 1) / 10.0
  }

  /**
   * Go's decimal floating-point syntax: an optional sign, digits with an
   * optional '.', at least one digit in all, then optionally 'e' or 'E'
   * and an integer exponent. None when the text does not fit it.
   */
  function ParseDecimal(s: string): Option<real> {
    var neg := |s| > 0 && s[0] == '-';
    var t := if |s| > 0 && (s[0] == '+' || s[0] == '-') then s[1..] else s;
    match ParseUnsigned(t)
    case None => None
    case Some(v) => Some(if neg then -v else v)
  }

  /** The unsigned part: integer digits, then what follows them. */
  function ParseUnsigned(t: string): Option<real> {
    var a := LeadingDigits(t);
    LeadingDigitsShape(t);
    ParseFraction(DigitsValue(t[..a]) as real, a > 0, t[a..])
  }

  /** An optional '.' and fraction digits after the integer digits. */
  function ParseFraction(whole: real, hasDigits: bool, afterInt: string): Option<real> {
    if |afterInt| > 0 && afterInt[0] == '.' then
      var fracSrc := afterInt[1..];
      var b := LeadingDigits(fracSrc);
      LeadingDigitsShape(fracSrc);
      ParseExponent(whole + FractionValue(fracSrc[..b]), hasDigits || b > 0, fracSrc[b..])
    else ParseExponent(whole, hasDigits, afterInt)
  }

  /** Nothing more, or an exponent; and there must have been a digit. */
  function ParseExponent(mantissa: real, hasDigits: bool, rest: string): Option<real> {
    if !hasDigits then None
    else if rest == [] then Some(mantissa)
    else if (rest[0] == 'e' || rest[0] == 'E') && IsIntegerText(rest[1..]) then
      Some(Scale10(mantissa, IntegerValue(rest[1..])))
    else None
  }

  /** `strconv.ParseFloat(s, 64)` with the error dropped: 0 when malformed. */
  function ParseFloat(s: string): real {
    match ParseDecimal(s)
    case Some(v) => v
    case None => 0.0
  }

  lemma {:induction false} LeadingDigitsAll(s: string)
    requires AllDigits(s)
    ensures LeadingDigits(s) == |s|
    decreases |s|
  {
    if s != [] {
      LeadingDigitsAll(s[1..]);
    }
  }

  /** On integer texts, `ParseFloat` agrees with the unbounded value `Atoi` reads. */
  lemma ParseFloatInteger(s: string)
    requires IsIntegerText(s)
    ensures ParseDecimal(s) == Some(IntegerValue(s) as real)
    ensures MinInt <= IntegerValue(s) <= MaxInt ==> ParseFloat(s) == Atoi(s) as real
  {
    var t := if s[0] == '+' || s[0] == '-' then s[1..] else s;
    LeadingDigitsAll(t);
    assert t[..|t|] == t;
    assert t[|t|..] == [];
    AtoiInteger(s);
  }

  /** Text that starts with neither a sign, a digit nor a point parses to 0. */
  lemma ParseFloatNoDigits(s: string)
    requires s != [] && s[0] != '+' && s[0] != '-' && s[0] != '.' && !IsDigit(s[0])
    ensures ParseFloat(s) == 0.0
  {
    assert LeadingDigits(s) == 0;
  }

  /** A decimal text `w.f` has the value of its integer digits plus its fraction digits. */
  lemma {:induction false} ParseFloatFraction(w: string, f: string)
    requires AllDigits(w) && AllDigits(f) && |w| + |f| > 0
    ensures ParseDecimal(w + "." + f) == Some(DigitsValue(w) as real + FractionValue(f))
  {
    var s := w + ("." + f);
    assert w + "." + f == s;
    assert s[0] == if |w| > 0 then w[0] else '.';
    DecimalUnsigned(s);
    UnsignedParts(w, "." + f);
    FractionPart(DigitsValue(w) as real, |w| > 0, f);
  }

  /** Without a sign, the text is read as an unsigned number. */
  lemma DecimalUnsigned(s: string)
    requires s == [] || (s[0] != '+' && s[0] != '-')
    ensures ParseDecimal(s) == ParseUnsigned(s)
  {
  }

  /** The integer digits end where the first non-digit starts. */
  lemma UnsignedParts(w: string, t: string)
    requires AllDigits(w) && (t == [] || !IsDigit(t[0]))
    ensures ParseUnsigned(w + t) == ParseFraction(DigitsValue(w) as real, |w| > 0, t)
  {
    LeadingDigitsPrefix(w, t);
    assert (w + t)[..|w|] == w;
    assert (w + t)[|w|..] == t;
  }

  /** A point and digits to the end of the text: the value is the fraction added. */
  lemma FractionPart(whole: real, hasDigits: bool, f: string)
    requires AllDigits(f) && (hasDigits || f != [])
    ensures ParseFraction(whole, hasDigits, "." + f) == Some(whole + FractionValue(f))
  {
    assert ("." + f)[1..] == f;
    LeadingDigitsAll(f);
    assert f[..|f|] == f;
    assert f[|f|..] == [];
  }

  /** A leading '-' negates the value, and a malformed text stays malformed. */
  lemma {:induction false} ParseFloatNegative(s: string)
    requires s == [] || (s[0] != '+' && s[0] != '-')
    ensures ParseDecimal("-" + s).Some? <==> ParseDecimal(s).Some?
    ensures ParseFloat("-" + s) == -ParseFloat(s)
  {
    assert ("-" + s)[1..] == s;
    DecimalUnsigned(s);
  }

  /** A run of digits followed by a non-digit: `LeadingDigits` counts exactly the run. */
  lemma {:induction false} LeadingDigitsPrefix(w: string, t: string)
    requires AllDigits(w) && (t == [] || !IsDigit(t[0]))
    ensures LeadingDigits(w + t) == |w|
    decreases |w|
  {
    if w != [] {
      assert (w + t)[1..] == w[1..] + t;
      LeadingDigitsPrefix(w[1..], t);
    }
  }
}
