/**
 The number printers of test/unity/unity.c: integers digit by digit from the top,
 and floats from the scaled integer on, through a 16-character buffer.
 */
module UnityNumbers {
  import opened Text

  const INT_MIN := -0x8000_0000
  const INT_MAX := 0x7FFF_FFFF
  const BUFFER_SIZE: nat := 16

  function Pow10(n: nat): (p: nat)
    ensures p >= 1
  {
    if n == 0 then 1 else 10 * Pow10(n - 1)
  }

  // ----- decimal digits from the bottom -----

  /** The digits of n, at least count of them, last digit first. */
  function Reversed(n: nat, count: nat): string
    decreases n + count
  {
    if n == 0 && count == 0 then ""
    else [DigitChar(n % 10)] + Reversed(n / 10, if count == 0 then 0 else count - 1)
  }

  /** How many digits must still come. */
  function Pending(digits: nat, count: nat): nat { if digits < count then count - digits else 0 }

  lemma ReversedStep(before: string, n: nat, count: nat)
    requires n > 0 || count > 0
    ensures before + Reversed(n, count)
         == before + [DigitChar(n % 10)] + Reversed(n / 10, if count == 0 then 0 else count - 1)
    ensures |Reversed(n, count)| >= 1
  {
    var more := Reversed(n / 10, if count == 0 then 0 else count - 1);
    assert Reversed(n, count) == [DigitChar(n % 10)] + more;
    assert before + ([DigitChar(n % 10)] + more) == before + [DigitChar(n % 10)] + more;
  }

  lemma ReversedEnds(before: string)
    ensures before + Reversed(0, 0) == before
  {
  }

  function Backwards(s: string): (r: string)
    ensures |r| == |s|
  {
    if s == "" then "" else Backwards(s[1..]) + [s[0]]
  }

  /** n in decimal, padded with zeros to at least count digits. */
  function Padded(n: nat, count: nat): string { Backwards(Reversed(n, count)) }

  lemma PaddedStep(n: nat, count: nat)
    requires n > 0 || count > 0
    ensures Padded(n, count) == Padded(n / 10, if count == 0 then 0 else count - 1) + [DigitChar(n % 10)]
  {
  }

  lemma {:induction false} PaddedDenotes(n: nat, count: nat)
    ensures AllDigits(Padded(n, count)) && DigitsValue(Padded(n, count)) == n
    ensures |Padded(n, count)| >= count
    ensures |Padded(n, count)| > count ==> n >= Pow10(|Padded(n, count)| - 1)
    decreases n + count
  {
    if n == 0 && count == 0 {
      assert Padded(n, count) == "";
    } else {
      var m := if count == 0 then 0 else count - 1;
      PaddedDenotes(n / 10, m);
      PaddedStep(n, count);
      var s := Padded(n, count);
      assert s[..|s| - 1] == Padded(n / 10, m);
    }
  }

  lemma {:induction false} PaddedLength(n: nat, count: nat, k: nat)
    requires n < Pow10(k)
    ensures |Padded(n, count)| <= if count <= k then k else count
    decreases n + count
  {
    if n == 0 && count == 0 {
    } else {
      PaddedStep(n, count);
      var m := if count == 0 then 0 else count - 1;
      if k == 0 {
        PaddedLength(n / 10, m, 0);
      } else {
        assert n / 10 < Pow10(k - 1);
        PaddedLength(n / 10, m, k - 1);
      }
    }
  }

  /** Without padding this is what printf writes. */
  lemma {:induction false} PaddedIsDecimal(n: nat)
    requires n > 0
    ensures Padded(n, 0) == Decimal(n)
  {
    PaddedStep(n, 0);
    if n < 10 {
      assert Padded(0, 0) == "";
    } else {
      PaddedIsDecimal(n / 10);
    }
  }

  // ----- reading a printed float back -----

  /** mantissa times ten to the power scale. */
  datatype Scientific = Scientific(mantissa: nat, scale: int)

  /** The same number: equal once both are written with the smaller scale. */
  predicate SameNumber(a: Scientific, b: Scientific) {
    if a.scale >= b.scale then a.mantissa * Pow10(a.scale - b.scale) == b.mantissa
    else a.mantissa == b.mantissa * Pow10(b.scale - a.scale)
  }

  /** Digits, then a point and digits, then an exponent; the last two parts are optional. */
  datatype Shape = Shape(whole: string, fraction: string, exponent: string) {
    function Characters(): string {
      whole + (if fraction == "" then "" else "." + fraction) + exponent
    }

    /**
     No padding: a digit before the point, none to spare there, no zero to spare after it, two exponent digits or
     more.
     */
    predicate Tidy() {
      && AllDigits(whole) && |whole| >= 1 && (|whole| > 1 ==> whole[0] != '0')
      && AllDigits(fraction) && (fraction != "" ==> fraction[|fraction| - 1] != '0')
      && (exponent != "" ==>
            && |exponent| >= 4 && exponent[0] == 'e' && (exponent[1] == '+' || exponent[1] == '-')
            && AllDigits(exponent[2..]) && (|exponent| > 4 ==> exponent[2] != '0'))
    }

    /** The number a reader makes of it. */
    function Denotes(): Scientific
      requires Tidy()
    {
      Scientific(DigitsValue(whole + fraction), Exponent() - |fraction|)
    }

    function Exponent(): int
      requires Tidy()
    {
      if exponent == "" then 0
      else if exponent[1] == '-' then 0 - DigitsValue(exponent[2..])
      else DigitsValue(exponent[2..])
    }
  }

  /** A reader's way of taking text apart: at the e, then at the point. */
  function ShapeOf(text: string): Shape {
    var e := IndexOf(text, 'e');
    var mantissa := text[..e];
    var point := IndexOf(mantissa, '.');
    Shape(mantissa[..point], if point < |mantissa| then mantissa[point + 1..] else "", text[e..])
  }

  /**
   The text is tidy, a reader makes n times ten to the exponent of it, it has an exponent part only outside
   the plain range, and then a full-width n shows one digit before the point.
   */
  predicate ReadsAs(text: string, n: nat, exponent: int, significant: nat)
    requires significant > 0
  {
    var shape := ShapeOf(text);
    && shape.Tidy() && shape.Characters() == text
    && SameNumber(shape.Denotes(), Scientific(n, exponent))
    && (shape.exponent == "" <==> -(significant + 3) <= exponent <= 0)
    && (shape.exponent != "" && n >= Pow10(significant - 1) ==> |shape.whole| == 1)
  }

  lemma ShapeReadsBack(s: Shape)
    requires s.Tidy()
    ensures ShapeOf(s.Characters()) == s
  {
    var point := if s.fraction == "" then "" else "." + s.fraction;
    NoSuchCharacter(s.whole, 'e');
    NoSuchCharacter(s.fraction, 'e');
    NoSuchCharacter(s.whole, '.');
    assert s.exponent != "" ==> s.exponent[0] == 'e';
    assert 'e' !in s.whole + point;
    hide Shape.Tidy, AllDigits, IndexOf;
    CutAt(s.whole + point, 'e', s.exponent);
    CutAt(s.whole, '.', point);
    assert s.fraction != "" ==> (s.whole + point)[|s.whole| + 1..] == s.fraction;
  }

  /** The first c is where the second part starts. */
  lemma CutAt(first: string, c: char, second: string)
    requires c !in first && (second != "" ==> second[0] == c)
    ensures IndexOf(first + second, c) == |first|
    ensures (first + second)[..|first|] == first && (first + second)[|first|..] == second
  {
  }

  lemma NoSuchCharacter(s: string, c: char)
    requires forall i :: 0 <= i < |s| ==> s[i] != c
    ensures c !in s
  {
  }

  lemma {:induction false} LeadingZeroBounds(s: string)
    requires AllDigits(s) && s != "" && s[0] == '0'
    ensures DigitsValue(s) < Pow10(|s| - 1)
  {
    if |s| == 1 {
      assert s[..0] == "";
    } else {
      LeadingZeroBounds(s[..|s| - 1]);
    }
  }

  lemma PaddedHasNoSpareZero(n: nat, count: nat)
    ensures |Padded(n, count)| > count ==> Padded(n, count)[0] != '0'
  {
    PaddedDenotes(n, count);
    var s := Padded(n, count);
    if |s| > count && s[0] == '0' {
      LeadingZeroBounds(s);
    }
  }

  // ----- division by powers of ten -----

  lemma MultiplyMonotone(d: nat, x: nat, y: nat)
    requires x <= y
    ensures d * x <= d * y
  {
  }

  lemma QuotientIs(a: nat, d: nat, q: nat, r: nat)
    requires d > 0 && a == d * q + r && r < d
    ensures a / d == q
  {
    var p, s := a / d, a % d;
    DivisionIs(a, d);
    assert d * (p + 1) == d * p + d && d * (q + 1) == d * q + d;
    if p < q {
      MultiplyMonotone(d, p + 1, q);
    } else if q < p {
      MultiplyMonotone(d, q + 1, p);
    }
  }

  lemma DivisionIs(a: nat, d: nat)
    requires d > 0
    ensures a == d * (a / d) + a % d && a % d < d
  {
  }

  lemma DivideTwice(a: nat, b: nat)
    requires b > 0
    ensures a / (b * 10) == a / b / 10
    ensures a / b >= 1 ==> b <= a
    ensures a / b >= 10 ==> b * 10 <= a
  {
    var q, r := a / b, a % b;
    DivisionIs(a, b);
    var u, v := q / 10, q % 10;
    TenTimes(b, u, v);
    MultiplyMonotone(b, v, 9);
    QuotientIs(a, b * 10, u, b * v + r);
    if q >= 1 {
      MultiplyMonotone(b, 1, q);
    }
    if q >= 10 {
      MultiplyMonotone(b, 10, q);
    }
  }

  lemma TenTimes(b: nat, u: nat, v: nat)
    ensures b * (10 * u + v) == (b * 10) * u + b * v
  {
  }

  function DigitAt(number: nat, divisor: nat): char
    requires divisor > 0
  {
    DigitChar(number / divisor % 10)
  }

  /** number in decimal without its last k digits. */
  function Leading(number: nat, k: nat): string { Decimal(Quotient(number, Pow10(k))) }

  function Quotient(a: nat, d: nat): nat
    requires d > 0
  {
    a / d
  }

  lemma NoDigitLeft(number: nat)
    ensures Leading(number, 0) == Decimal(number)
  {
  }

  lemma FirstDigit(number: nat, divisor: nat, k: nat)
    requires divisor == Pow10(k)
    ensures divisor / 10 == if k == 0 then 0 else Pow10(k - 1)
    ensures !ManyDigits(number, divisor) ==> Leading(number, k) == [DigitAt(number, divisor)]
  {
  }

  predicate ManyDigits(number: nat, divisor: nat)
    requires divisor > 0
  {
    number / divisor > 9
  }

  lemma TenfoldFits(number: nat, divisor: nat)
    requires divisor > 0 && ManyDigits(number, divisor)
    ensures divisor * 10 <= number
  {
    DivideTwice(number, divisor);
  }

  /** The digit after those of number / 10^k. */
  lemma NextDigit(number: nat, k: nat)
    requires k > 0 && Pow10(k) <= number
    ensures var divisor := Pow10(k - 1);
            && Leading(number, k - 1) == Leading(number, k) + [DigitAt(number, divisor)]
            && (k == 1 || divisor <= number)
            && divisor / 10 == if k == 1 then 0 else Pow10(k - 2)
  {
    var divisor := Pow10(k - 1);
    FirstDigit(number, divisor, k - 1);
    DivideTwice(number, divisor);
    assert Pow10(k) == divisor * 10;
    AtLeastOne(number, Pow10(k));
  }

  lemma AtLeastOne(a: nat, d: nat)
    requires 0 < d <= a
    ensures a / d >= 1
  {
  }

  /** The machine word a signed number becomes. */
  function AsUnsigned(number: int): (u: nat)
    ensures u < WORD_MODULUS
  {
    number % WORD_MODULUS
  }

  /** All bits flipped, plus one. */
  function Negated(number: nat): (u: nat)
    requires number < WORD_MODULUS
    ensures u < WORD_MODULUS
  {
    ((WORD_MODULUS - 1 - number) + 1) % WORD_MODULUS
  }

  /** Two's complement negation is exact on every negative machine number. */
  lemma UnsignedNegation(number: int)
    requires -(WORD_MODULUS / 2) <= number < WORD_MODULUS / 2
    ensures number >= 0 ==> AsUnsigned(number) == number
    ensures number < 0 ==> Negated(AsUnsigned(number)) == -number
  {
  }

  /** A minus sign and digits, or digits alone; they stand for the number, and none of them is to spare. */
  predicate NumberText(text: string, number: int) {
    var digits := if "-" <= text then text[1..] else text;
    && ("-" <= text <==> number < 0)
    && |digits| >= 1 && (|digits| > 1 ==> digits[0] != '0')
    && AllDigits(digits) && DigitsValue(digits) == if number < 0 then -number else number
  }

  lemma SignedUnfolds(number: int)
    ensures SignedDecimal(number) == if number < 0 then ['-'] + Decimal(-number) else Decimal(number)
  {
  }

  lemma PrintedNumber(start: string, number: int)
    ensures start <= start + SignedDecimal(number)
    ensures NumberText((start + SignedDecimal(number))[|start|..], number)
  {
    hide SignedDecimal;
    SignedDecimalDenotes(number);
    assert (start + SignedDecimal(number))[|start|..] == SignedDecimal(number);
  }

  // ----- the printers -----

  class Printer {
    var output: string

    constructor ()
      ensures output == ""
    {
      output := "";
    }

    method Put(c: char)
      modifies this
      ensures output == old(output) + [c]
    {
      output := output + [c];
    }

    /** The largest power of ten that leaves a single digit; multiplying up to it never wraps. */
    method TopDivisor(number: nat) returns (divisor: nat, ghost k: nat)
      requires number < WORD_MODULUS
      ensures divisor == Pow10(k) && !ManyDigits(number, divisor)
      ensures k == 0 || divisor <= number
    {
      hide ManyDigits;
      divisor, k := 1, 0;
      while ManyDigits(number, divisor)
        invariant divisor == Pow10(k)
        invariant k == 0 || divisor <= number
        decreases number - divisor
      {
        TenfoldFits(number, divisor);
        divisor := divisor * 10 % WORD_MODULUS;
        k := k + 1;
      }
    }

    method PrintNumberUnsigned(number: nat)
      requires number < WORD_MODULUS
      modifies this
      ensures output == old(output) + Decimal(number)
      ensures old(output) <= output && NumberText(output[|old(output)|..], number)
    {
      hide NumberText, Decimal, SignedDecimal, Pow10, Leading, DigitAt, ManyDigits;
      var divisor, k := TopDivisor(number);
      FirstDigit(number, divisor, k);
      NoDigitLeft(number);
      Put(DigitAt(number, divisor));
      divisor := divisor / 10;
      while divisor > 0
        invariant divisor == if k == 0 then 0 else Pow10(k - 1)
        invariant k == 0 || Pow10(k) <= number
        invariant output == old(output) + Leading(number, k)
        decreases k
      {
        NextDigit(number, k);
        Put(DigitAt(number, divisor));
        divisor := divisor / 10;
        k := k - 1;
      }
      SignedUnfolds(number);
      PrintedNumber(old(output), number);
    }

    /** Negative numbers are negated in unsigned arithmetic, which also suits the most negative one. */
    method PrintNumber(number: int)
      requires -(WORD_MODULUS / 2) <= number < WORD_MODULUS / 2
      modifies this
      ensures output == old(output) + SignedDecimal(number)
      ensures old(output) <= output && NumberText(output[|old(output)|..], number)
    {
      hide Decimal, SignedDecimal, AsUnsigned, Negated, NumberText;
      UnsignedNegation(number);
      SignedUnfolds(number);
      var magnitude := AsUnsigned(number);
      if number < 0 {
        Put('-');
        magnitude := Negated(magnitude);
      }
      PrintNumberUnsigned(magnitude);
      PrintedNumber(old(output), number);
    }

    /**
     The float printer from the scaled integer n on: what it prints is read back as exactly
     n times ten to the exponent. significant is 9 or 7, as doubles are supported or not.
     */
    method PrintScaled(n: nat, exponent: int, significant: nat)
      requires significant == 9 || significant == 7
      requires 0 < n < Pow10(significant) && INT_MIN <= exponent <= INT_MAX - (significant - 1)
      modifies this
      ensures old(output) <= output
      ensures ReadsAs(output[|old(output)|..], n, exponent, significant)
    {
      hide ReadsAs, Placement, ShapeOf, Trimmed, Padded, Reversed, Pow10, ExponentText, WithPoint;
      PowerFits(exponent, significant);
      var placed := Placement(exponent, significant);
      var rest, decimals := Trim(n, placed);
      ScaledParts(n, exponent, significant, rest, decimals);
      ScaledShape(n, exponent, significant, rest, decimals);
      PrintParts(rest, decimals, exponent + placed);
    }

    method PrintParts(rest: nat, decimals: nat, power: int)
      requires decimals < |Padded(rest, decimals + 1)| <= BUFFER_SIZE && -(INT_MAX + 1) <= power <= INT_MAX
      modifies this
      ensures old(output) <= output
      ensures output[|old(output)|..] == WithPoint(Padded(rest, decimals + 1), decimals) + ExponentText(power)
    {
      hide Padded, ExponentText, WithPoint;
      var buffer := new char[BUFFER_SIZE];
      PrintDigits(buffer, rest, decimals + 1, decimals);
      PrintExponent(buffer, power);
      OutputGrows(old(output), WithPoint(Padded(rest, decimals + 1), decimals), ExponentText(power));
    }

    /** Drops zeros that would end the fraction. */
    static method Trim(n: nat, placed: nat) returns (rest: nat, decimals: nat)
      requires n > 0
      ensures decimals <= placed && Trimmed(n, placed) == (rest, placed - decimals)
    {
      rest, decimals := n, placed;
      TrimmedMeans(n, placed);
      while decimals > 0 && rest % 10 == 0
        invariant rest > 0 && decimals <= placed
        invariant Trimmed(n, placed) == (Trimmed(rest, decimals).0, Trimmed(rest, decimals).1 + (placed - decimals))
        decreases decimals
      {
        rest := rest / 10;
        decimals := decimals - 1;
      }
    }

    /** Digits into the buffer from the bottom, out of it from the top. */
    method PrintDigits(buffer: array<char>, n: nat, count: nat, decimals: nat)
      requires |Padded(n, count)| <= buffer.Length && decimals < |Padded(n, count)|
      modifies this, buffer
      ensures output == old(output) + WithPoint(Padded(n, count), decimals)
    {
      var digits := FillBuffer(buffer, n, count);
      PrintBackwards(buffer, digits, decimals);
    }

    method PrintExponent(buffer: array<char>, power: int)
      requires buffer.Length == BUFFER_SIZE && -(INT_MAX + 1) <= power <= INT_MAX
      modifies this, buffer
      ensures output == old(output) + ExponentText(power)
    {
      if power == 0 {
        return;
      }
      ExponentTextIs(power);
      hide Padded, Pow10, ExponentText, WithPoint;
      Put('e');
      var magnitude := power;
      if power < 0 {
        Put('-');
        magnitude := -power;
      } else {
        Put('+');
      }
      PrintDigits(buffer, magnitude, 2, 0);
    }

    /** Fills the buffer with digits of n, last digit first, at least count of them. */
    method FillBuffer(buffer: array<char>, n: nat, count: nat) returns (digits: nat)
      requires |Reversed(n, count)| <= buffer.Length
      modifies buffer
      ensures digits == |Reversed(n, count)| && buffer[..digits] == Reversed(n, count)
    {
      hide Reversed;
      digits := 0;
      var rest: nat := n;
      while rest != 0 || digits < count
        invariant digits <= buffer.Length
        invariant buffer[..digits] + Reversed(rest, Pending(digits, count)) == Reversed(n, count)
        decreases rest + Pending(digits, count)
      {
        ghost var before := buffer[..digits];
        ReversedStep(before, rest, Pending(digits, count));
        buffer[digits] := DigitChar(rest % 10);
        assert buffer[..digits + 1] == before + [DigitChar(rest % 10)];
        digits := digits + 1;
        rest := rest / 10;
      }
      ReversedEnds(buffer[..digits]);
    }

    /** Empties the buffer from its top, with a point before the last decimals characters if they are fewer than all. */
    method PrintBackwards(buffer: array<char>, count: nat, decimals: nat)
      requires count <= buffer.Length && (decimals < count || (decimals == 0 && count == 0))
      modifies this
      ensures output == old(output) + WithPoint(Backwards(buffer[..count]), decimals)
    {
      hide PointedPrefix, WithPoint, Backwards;
      var digits: nat := count;
      ghost var all := Backwards(buffer[..count]);
      ghost var start := output;
      PrefixEnds(all, decimals);
      while digits > 0
        invariant digits <= count
        invariant output == start + PointedPrefix(all, decimals, count - digits)
        decreases digits
      {
        BackwardsAt(buffer[..count], digits - 1);
        PrefixPut(start, all, decimals, count - digits);
        if digits == decimals {
          Put('.');
        }
        digits := digits - 1;
        Put(buffer[digits]);
      }
    }
  }

  /** Where the decimal point goes: plainly for small negative exponents, after the first digit otherwise. */
  function Placement(exponent: int, digits: nat): nat
    requires digits > 0
  {
    if -(digits + 3) <= exponent <= 0 then -exponent else digits - 1
  }

  /** n without the zeros that would end its fraction, and how many went. */
  function Trimmed(n: nat, decimals: nat): (nat, nat) {
    if decimals == 0 || n % 10 != 0 then (n, 0)
    else var (m, k) := Trimmed(n / 10, decimals - 1); (m, k + 1)
  }

  lemma {:induction false} TrimmedMeans(n: nat, decimals: nat)
    requires n > 0
    ensures var (m, k) := Trimmed(n, decimals);
            && 0 < m <= n && k <= decimals && m * Pow10(k) == n
            && (k < decimals ==> m % 10 != 0)
    decreases decimals
  {
    if decimals > 0 && n % 10 == 0 {
      TrimmedMeans(n / 10, decimals - 1);
      var (m, k) := Trimmed(n / 10, decimals - 1);
      assert m * Pow10(k + 1) == m * (10 * Pow10(k)) == 10 * (m * Pow10(k));
    }
  }

  /** The first m characters, with the point once it has come. */
  function PointedPrefix(digits: string, decimals: nat, m: nat): string
    requires decimals <= |digits| && m <= |digits|
  {
    var whole := |digits| - decimals;
    if decimals == 0 || m <= whole then digits[..m] else digits[..whole] + "." + digits[whole..m]
  }

  lemma PrefixEnds(digits: string, decimals: nat)
    requires decimals <= |digits|
    ensures PointedPrefix(digits, decimals, 0) == ""
    ensures PointedPrefix(digits, decimals, |digits|) == WithPoint(digits, decimals)
  {
  }

  /** Emitting one more character after what was there before. */
  lemma PrefixPut(start: string, digits: string, decimals: nat, m: nat)
    requires decimals <= |digits| && m < |digits|
    ensures var now := start + PointedPrefix(digits, decimals, m);
            var pointed := if m == |digits| - decimals then now + ['.'] else now;
            pointed + [digits[m]] == start + PointedPrefix(digits, decimals, m + 1)
  {
    hide PointedPrefix;
    PrefixGains(digits, decimals, m);
    assert start + PointedPrefix(digits, decimals, m) + ['.'] + [digits[m]]
        == start + (PointedPrefix(digits, decimals, m) + ['.', digits[m]]);
  }

  lemma PrefixGains(digits: string, decimals: nat, m: nat)
    requires decimals <= |digits| && m < |digits|
    ensures PointedPrefix(digits, decimals, m + 1) ==
            PointedPrefix(digits, decimals, m) + if m == |digits| - decimals then ['.', digits[m]] else [digits[m]]
  {
  }

  /** A point goes before the last decimals characters, if there are any. */
  function WithPoint(digits: string, decimals: nat): string
    requires decimals <= |digits|
  {
    if decimals == 0 then digits
    else digits[..|digits| - decimals] + "." + digits[|digits| - decimals..]
  }

  lemma {:induction false} BackwardsAt(s: string, i: nat)
    requires i < |s|
    ensures Backwards(s)[|s| - 1 - i] == s[i]
  {
    if i > 0 {
      BackwardsAt(s[1..], i - 1);
    }
  }

  // ----- the text of a scaled integer -----

  function ExponentText(power: int): string {
    if power == 0 then ""
    else if power < 0 then "e-" + Padded(-power, 2)
    else "e+" + Padded(power, 2)
  }

  lemma ExponentTextIs(power: int)
    requires power != 0 && -(INT_MAX + 1) <= power <= INT_MAX
    ensures var magnitude := if power < 0 then -power else power;
            && 0 < |Padded(magnitude, 2)| <= BUFFER_SIZE
            && forall start: string ::
                 start + ['e'] + [if power < 0 then '-' else '+'] + WithPoint(Padded(magnitude, 2), 0)
                 == start + ExponentText(power)
  {
    hide Padded, Pow10;
    var magnitude := if power < 0 then -power else power;
    ExponentFits(magnitude);
    PaddedDenotes(magnitude, 2);
    var sign, digits := if power < 0 then '-' else '+', Padded(magnitude, 2);
    assert ExponentText(power) == ['e', sign] + digits;
    forall start: string ensures start + ['e'] + [sign] + digits == start + (['e', sign] + digits) {
    }
  }

  lemma OutputGrows(start: string, a: string, b: string)
    ensures start + a + b == start + (a + b)
    ensures start <= start + (a + b) && (start + (a + b))[|start|..] == a + b
  {
  }

  lemma ExponentFits(magnitude: nat)
    requires magnitude <= INT_MAX + 1
    ensures |Padded(magnitude, 2)| <= BUFFER_SIZE
  {
    assert Pow10(2) == 100 && Pow10(4) == 10000 && Pow10(6) == 1000000;
    assert Pow10(8) == 100000000 && Pow10(10) == 10000000000;
    PaddedLength(magnitude, 2, 10);
  }

  /** What the trimming loop leaves, and that it fits the buffer. */
  lemma ScaledParts(n: nat, exponent: int, significant: nat, rest: nat, decimals: nat)
    requires significant == 9 || significant == 7
    requires 0 < n < Pow10(significant)
    requires decimals <= Placement(exponent, significant)
    requires Trimmed(n, Placement(exponent, significant)) == (rest, Placement(exponent, significant) - decimals)
    ensures 0 < rest <= n && rest * Pow10(Placement(exponent, significant) - decimals) == n
    ensures decimals > 0 ==> rest % 10 != 0
    ensures decimals < |Padded(rest, decimals + 1)| <= BUFFER_SIZE
    ensures |Reversed(rest, decimals + 1)| == |Padded(rest, decimals + 1)|
  {
    var placed := Placement(exponent, significant);
    assert placed <= 12 && significant <= 9;
    assert |Reversed(rest, decimals + 1)| == |Padded(rest, decimals + 1)|;
    hide Pow10, Trimmed, Placement, Reversed, Backwards, Padded, DigitsValue;
    TrimmedMeans(n, placed);
    PaddedLength(rest, decimals + 1, significant);
    PaddedDenotes(rest, decimals + 1);
  }

  function ShapeFor(rest: nat, decimals: nat, power: int): Shape
    requires decimals <= |Padded(rest, decimals + 1)|
  {
    var p := Padded(rest, decimals + 1);
    Shape(p[..|p| - decimals], p[|p| - decimals..], ExponentText(power))
  }

  lemma MantissaIsTidy(rest: nat, decimals: nat)
    requires rest > 0 && (decimals > 0 ==> rest % 10 != 0)
    ensures decimals < |Padded(rest, decimals + 1)|
    ensures var p := Padded(rest, decimals + 1);
            var whole, fraction := p[..|p| - decimals], p[|p| - decimals..];
            && AllDigits(whole) && |whole| >= 1 && (|whole| > 1 ==> whole[0] != '0')
            && AllDigits(fraction) && (fraction != "" ==> fraction[|fraction| - 1] != '0')
            && (fraction == "" <==> decimals == 0) && |fraction| == decimals
            && AllDigits(whole + fraction) && DigitsValue(whole + fraction) == rest
            && WithPoint(p, decimals) == whole + if fraction == "" then "" else "." + fraction
  {
    hide Padded, Pow10, DigitsValue;
    var p := Padded(rest, decimals + 1);
    PaddedDenotes(rest, decimals + 1);
    PaddedHasNoSpareZero(rest, decimals + 1);
    PaddedStep(rest, decimals + 1);
    SplitDigits(p, decimals);
  }

  lemma SplitDigits(p: string, decimals: nat)
    requires decimals <= |p| && AllDigits(p)
    ensures var whole, fraction := p[..|p| - decimals], p[|p| - decimals..];
            && AllDigits(whole) && AllDigits(fraction) && whole + fraction == p
            && (decimals > 0 ==> fraction[decimals - 1] == p[|p| - 1])
            && (decimals < |p| ==> whole[0] == p[0])
            && WithPoint(p, decimals) == whole + if fraction == "" then "" else "." + fraction
  {
  }

  lemma ExponentIsTidy(power: int)
    ensures var e := ExponentText(power);
            && (e == "" <==> power == 0)
            && (e != "" ==>
                  && |e| >= 4 && e[0] == 'e' && e[1] == (if power < 0 then '-' else '+')
                  && AllDigits(e[2..]) && (|e| > 4 ==> e[2] != '0')
                  && DigitsValue(e[2..]) == if power < 0 then -power else power)
  {
    if power != 0 {
      var magnitude := if power < 0 then -power else power;
      PaddedDenotes(magnitude, 2);
      PaddedHasNoSpareZero(magnitude, 2);
      assert ExponentText(power)[2..] == Padded(magnitude, 2);
    }
  }

  lemma ShapeForIsTidy(rest: nat, decimals: nat, power: int)
    requires rest > 0 && (decimals > 0 ==> rest % 10 != 0)
    ensures decimals < |Padded(rest, decimals + 1)|
    ensures var shape := ShapeFor(rest, decimals, power);
            && shape.Tidy() && (shape.exponent == "" <==> power == 0)
            && shape.Characters() == WithPoint(Padded(rest, decimals + 1), decimals) + ExponentText(power)
            && shape.Denotes() == Scientific(rest, power - decimals)
            && |shape.whole| == |Padded(rest, decimals + 1)| - decimals
  {
    hide Padded, ExponentText, DigitsValue, WithPoint;
    MantissaIsTidy(rest, decimals);
    ExponentIsTidy(power);
  }

  /** The printed text read back. */
  lemma ScaledShape(n: nat, exponent: int, significant: nat, rest: nat, decimals: nat)
    requires significant == 9 || significant == 7
    requires 0 < n < Pow10(significant)
    requires decimals <= Placement(exponent, significant)
    requires rest > 0 && rest * Pow10(Placement(exponent, significant) - decimals) == n
    requires decimals > 0 ==> rest % 10 != 0
    requires decimals <= |Padded(rest, decimals + 1)|
    ensures var power := exponent + Placement(exponent, significant);
            ReadsAs(WithPoint(Padded(rest, decimals + 1), decimals) + ExponentText(power), n, exponent, significant)
  {
    hide Padded, ShapeOf, Shape.Tidy, Shape.Characters, Shape.Denotes, Pow10, Placement, ExponentText, WithPoint,
         ShapeFor, SameNumber;
    var placed := Placement(exponent, significant);
    PlacementMeans(exponent, significant);
    ShapeForIsTidy(rest, decimals, exponent + placed);
    ShapeReadsBack(ShapeFor(rest, decimals, exponent + placed));
    TrimmingKeepsNumber(n, exponent, rest, placed - decimals);
    assert exponent + (placed - decimals) == exponent + placed - decimals;
    if exponent + placed != 0 {
      WholeIsOneDigit(n, significant, rest, decimals);
    }
  }

  lemma TrimmingKeepsNumber(n: nat, exponent: int, rest: nat, k: nat)
    requires rest * Pow10(k) == n
    ensures SameNumber(Scientific(rest, exponent + k), Scientific(n, exponent))
  {
  }

  lemma PowerFits(exponent: int, significant: nat)
    requires significant == 9 || significant == 7
    requires INT_MIN <= exponent <= INT_MAX - (significant - 1)
    ensures -(INT_MAX + 1) <= exponent + Placement(exponent, significant) <= INT_MAX
  {
  }

  lemma PlacementMeans(exponent: int, significant: nat)
    requires significant > 1
    ensures var placed := Placement(exponent, significant);
            && (exponent + placed == 0 <==> -(significant + 3) <= exponent <= 0)
            && (exponent + placed != 0 ==> placed == significant - 1)
  {
  }

  /** A fully scaled integer has just one digit left of the point when the point is placed after the first digit. */
  lemma WholeIsOneDigit(n: nat, significant: nat, rest: nat, decimals: nat)
    requires significant > 0 && 0 < n < Pow10(significant) && decimals <= significant - 1
    requires rest * Pow10(significant - 1 - decimals) == n
    ensures |Padded(rest, decimals + 1)| == decimals + 1
  {
    hide Padded, Pow10;
    PaddedDenotes(rest, decimals + 1);
    Pow10Adds(decimals + 1, significant - 1 - decimals);
    SmallerFactor(rest, Pow10(decimals + 1), Pow10(significant - 1 - decimals));
    PaddedLength(rest, decimals + 1, decimals + 1);
  }

  lemma SmallerFactor(x: nat, y: nat, d: nat)
    requires x * d < y * d
    ensures x < y
  {
  }

  lemma {:induction false} Pow10Adds(a: nat, b: nat)
    ensures Pow10(a + b) == Pow10(a) * Pow10(b)
  {
    if a > 0 {
      Pow10Adds(a - 1, b);
      assert Pow10(a) * Pow10(b) == 10 * (Pow10(a - 1) * Pow10(b));
    }
  }
}
