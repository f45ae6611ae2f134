/** Strings as the C sources use them: decimal rendering, separators, NUL-terminated buffers. */
module Text {

  /** What unsigned 64-bit arithmetic counts modulo: size_t, unsigned long long and UNITY_UINT. */
  const WORD_MODULUS: nat := 0x1_0000_0000_0000_0000

  // ----- decimal digits -----

  predicate IsDigit(c: char) { '0' <= c <= '9' }

  predicate AllDigits(s: string) { forall i :: 0 <= i < |s| ==> IsDigit(s[i]) }

  lemma DigitsAre(s: string)
    ensures AllDigits(s) <==> forall i :: 0 <= i < |s| ==> s[i] in "0123456789"
  {
  }

  function DigitChar(d: nat): (c: char)
    requires d < 10
    ensures IsDigit(c) && c as int - '0' as int == d
  {
    ('0' as int + d) as char
  }

  /** What printf writes for %u and %zu. */
  function Decimal(n: nat): string {
    if n < 10 then [DigitChar(n)] else Decimal(n / 10) + [DigitChar(n % 10)]
  }

  /** What printf writes for %d and %ld. */
  function SignedDecimal(n: int): string {
    if n < 0 then "-" + Decimal(-n) else Decimal(n)
  }

  /** The number a run of digits stands for. */
  function DigitsValue(s: string): nat
    requires AllDigits(s)
  {
    if s == "" then 0 else 10 * DigitsValue(s[..|s| - 1]) + (s[|s| - 1] as int - '0' as int)
  }

  lemma {:induction false} DecimalDenotes(n: nat)
    ensures AllDigits(Decimal(n)) && DigitsValue(Decimal(n)) == n
    ensures |Decimal(n)| >= 1 && (|Decimal(n)| > 1 ==> Decimal(n)[0] != '0')
  {
    if n < 10 {
      assert [DigitChar(n)][..0] == "";
    } else {
      DecimalDenotes(n / 10);
      var s := Decimal(n);
      assert s[..|s| - 1] == Decimal(n / 10);
      assert |Decimal(n / 10)| == 1 ==> Decimal(n / 10)[..0] == "";
    }
  }

  /** A minus sign exactly before negative numbers, and then the digits of the magnitude. */
  lemma SignedDecimalDenotes(n: int)
    ensures var text := SignedDecimal(n);
            && (n < 0 ==> |text| >= 2 && text[0] == '-')
            && var digits := if n < 0 then text[1..] else text;
               && AllDigits(digits) && DigitsValue(digits) == (if n < 0 then -n else n)
               && |digits| >= 1 && (|digits| > 1 ==> digits[0] != '0')
  {
    DecimalDenotes(if n < 0 then -n else n);
    assert n < 0 ==> ("-" + Decimal(-n))[1..] == Decimal(-n);
  }

  // ----- separators -----

  /** Position of the first c, or the length when there is none. */
  function IndexOf(s: string, c: char): (k: nat)
    ensures k <= |s| && c !in s[..k]
    ensures k < |s| ==> s[k] == c
  {
    if s == "" || s[0] == c then 0 else 1 + IndexOf(s[1..], c)
  }

  lemma IndexOfUnique(s: string, c: char, k: nat)
    requires k <= |s| && c !in s[..k] && (k < |s| ==> s[k] == c)
    ensures IndexOf(s, c) == k
  {
  }

  function Count(s: string, c: char): nat {
    if s == "" then 0 else (if s[0] == c then 1 else 0) + Count(s[1..], c)
  }

  /** All the pieces between separators; n separators give n + 1 pieces. */
  function Split(s: string, separator: char): (parts: seq<string>)
    ensures |parts| >= 1
    ensures forall i :: 0 <= i < |parts| ==> separator !in parts[i]
    decreases |s|
  {
    var k := IndexOf(s, separator);
    if k == |s| then [s[..k]] else [s[..k]] + Split(s[k + 1..], separator)
  }

  function Join(parts: seq<string>, separator: char): string
    requires |parts| >= 1
  {
    if |parts| == 1 then parts[0] else parts[0] + [separator] + Join(parts[1..], separator)
  }

  lemma {:induction false} JoinOfSplit(s: string, separator: char)
    ensures Join(Split(s, separator), separator) == s
    ensures |Split(s, separator)| == Count(s, separator) + 1
    decreases |s|
  {
    var k := IndexOf(s, separator);
    CountHead(s, separator, k);
    SplitUnfolds(s, separator);
    CutAround(s, k);
    hide Split, IndexOf, Count, Join;
    if k < |s| {
      var rest := s[k + 1..];
      JoinOfSplit(rest, separator);
      JoinCons(s[..k], Split(rest, separator), separator);
    } else {
      JoinOne(s, separator);
    }
  }

  lemma SplitUnfolds(s: string, separator: char)
    ensures var k := IndexOf(s, separator);
            Split(s, separator) == if k == |s| then [s] else [s[..k]] + Split(s[k + 1..], separator)
  {
    assert s[..|s|] == s;
  }

  lemma CutAround(s: string, k: nat)
    requires k <= |s|
    ensures s[..|s|] == s
    ensures k < |s| ==> s == s[..k] + [s[k]] + s[k + 1..]
  {
  }

  lemma JoinOne(part: string, separator: char)
    ensures Join([part], separator) == part
  {
  }

  lemma JoinCons(first: string, rest: seq<string>, separator: char)
    requires |rest| >= 1
    ensures Join([first] + rest, separator) == first + [separator] + Join(rest, separator)
  {
  }

  /** Separators from the first one on. */
  lemma CountHead(s: string, c: char, k: nat)
    requires k <= |s| && c !in s[..k] && (k < |s| ==> s[k] == c)
    ensures Count(s, c) == if k < |s| then 1 + Count(s[k + 1..], c) else 0
  {
    CountPrefix(s, c, k);
    assert k < |s| ==> s[k..][1..] == s[k + 1..];
  }

  lemma {:induction false} CountPrefix(s: string, c: char, k: nat)
    requires k <= |s| && c !in s[..k]
    ensures Count(s, c) == Count(s[k..], c)
  {
    if k > 0 {
      assert s[0] == s[..k][0];
      forall x | x in s[1..][..k - 1] ensures x in s[..k] {
        var i :| 0 <= i < k - 1 && s[1..][..k - 1][i] == x;
        assert s[..k][i + 1] == x;
      }
      CountPrefix(s[1..], c, k - 1);
      assert s[1..][k - 1..] == s[k..];
    } else {
      assert s[0..] == s;
    }
  }

  lemma {:induction false} SplitOfJoin(parts: seq<string>, separator: char)
    requires |parts| >= 1
    requires forall i :: 0 <= i < |parts| ==> separator !in parts[i]
    ensures Split(Join(parts, separator), separator) == parts
  {
    hide Split, IndexOf, Join;
    assert parts == [parts[0]] + parts[1..];
    if |parts| == 1 {
      assert parts == [parts[0]];
      JoinOne(parts[0], separator);
      LonePiece(parts[0], separator);
    } else {
      SplitOfJoin(parts[1..], separator);
      JoinCons(parts[0], parts[1..], separator);
      FirstPiece(parts[0], separator, Join(parts[1..], separator));
    }
  }

  lemma LonePiece(piece: string, separator: char)
    requires separator !in piece
    ensures Split(piece, separator) == [piece]
  {
    assert piece[..|piece|] == piece;
    IndexOfUnique(piece, separator, |piece|);
  }

  lemma FirstPiece(piece: string, separator: char, rest: string)
    requires separator !in piece
    ensures Split(piece + [separator] + rest, separator) == [piece] + Split(rest, separator)
  {
    var s := piece + [separator] + rest;
    assert s[..|piece|] == piece && s[|piece| + 1..] == rest;
    IndexOfUnique(s, separator, |piece|);
    SplitUnfolds(s, separator);
  }

  // ----- NUL-terminated buffers -----

  /** The C string that starts at offset i of a buffer. */
  function CString(buffer: seq<char>, i: nat): string
    requires i <= |buffer|
  {
    buffer[i..][..IndexOf(buffer[i..], '\0')]
  }

  lemma CStringIs(buffer: seq<char>, i: nat, j: nat)
    requires i <= j < |buffer| && buffer[j] == '\0'
    requires forall k :: i <= k < j ==> buffer[k] != '\0'
    ensures CString(buffer, i) == buffer[i..j]
  {
  }
}
