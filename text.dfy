/** Character and string helpers shared by the model: Go's `strings.ToLower`
    as far as file extensions need it, decimal digits, integer formatting and
    the byte-wise string order that `sort.Strings` uses. */
module Text {

  // ---------------------------------------------------------------------------
  // Case mapping
  // ---------------------------------------------------------------------------

  /** Lower-cases one character. ASCII letters map to their lower case,
      KELVIN SIGN (U+212A) to the ASCII letter k and LATIN CAPITAL LETTER I
      WITH DOT ABOVE (U+0130) to the ASCII letter i, as Unicode's simple case
      mapping does; these are the only characters that lower-case into
      ASCII. Every other character is left as it is. */
  function LowerChar(c: char): (r: char)
    ensures 'A' <= c <= 'Z' ==> 'a' <= r <= 'z' && r as int == c as int + 32
    ensures r != c ==> ('A' <= c <= 'Z' || c == '\U{212A}' || c == '\U{0130}')
    ensures !('A' <= r <= 'Z')
  {
    if 'A' <= c <= 'Z' then (c as int + 32) as char
    else if c == '\U{212A}' then 'k'
    else if c == '\U{0130}' then 'i'
    else c
  }

  /** Upper-cases one character. ASCII letters map to their upper case,
      LATIN SMALL LETTER DOTLESS I (U+0131) to the ASCII letter I and LATIN
      SMALL LETTER LONG S (U+017F) to the ASCII letter S, as Unicode's simple
      case mapping does; these are the only characters that upper-case into
      ASCII. Every other character is left as it is. */
  function UpperChar(c: char): (r: char)
    ensures 'a' <= c <= 'z' ==> 'A' <= r <= 'Z' && r as int == c as int - 32
    ensures r != c ==> ('a' <= c <= 'z' || UppersIntoAscii(c))
    ensures !('a' <= r <= 'z')
  {
    if 'a' <= c <= 'z' then (c as int - 32) as char
    else if c == '\U{0131}' then 'I'
    else if c == '\U{017F}' then 'S'
    else c
  }

  /** The two characters outside ASCII whose upper case is ASCII. */
  predicate UppersIntoAscii(c: char) {
    c == '\U{0131}' || c == '\U{017F}'
  }

  function ToLower(s: string): string {
    if s == [] then [] else [LowerChar(s[0])] + ToLower(s[1..])
  }

  function ToUpper(s: string): string {
    if s == [] then [] else [UpperChar(s[0])] + ToUpper(s[1..])
  }

  /** Both map a string character by character. */
  lemma {:induction false} CaseMapsPerChar(s: string)
    ensures |ToLower(s)| == |s| && forall i :: 0 <= i < |s| ==> ToLower(s)[i] == LowerChar(s[i])
    ensures |ToUpper(s)| == |s| && forall i :: 0 <= i < |s| ==> ToUpper(s)[i] == UpperChar(s[i])
  {
    if s != [] {
      CaseMapsPerChar(s[1..]);
    }
  }

  /** Lower-casing forgets the case of letters: a string and its
      upper-cased form have the same lower-cased form, unless the string
      holds a DOTLESS I or a LONG S, which upper-case into ASCII letters
      that lower-case to a different letter. */
  lemma LowerOfUpper(s: string)
    ensures ToLower(ToUpper(s)) == ToLower(s) <==> forall i :: 0 <= i < |s| ==> !UppersIntoAscii(s[i])
  {
    CaseMapsPerChar(s);
    CaseMapsPerChar(ToUpper(s));
    if forall i :: 0 <= i < |s| ==> !UppersIntoAscii(s[i]) {
      forall i | 0 <= i < |s|
        ensures ToLower(ToUpper(s))[i] == ToLower(s)[i]
      {
        LowerOfUpperChar(s[i]);
      }
    } else {
      var i :| 0 <= i < |s| && UppersIntoAscii(s[i]);
      LowerOfUpperChar(s[i]);
      assert ToLower(ToUpper(s))[i] != ToLower(s)[i];
    }
  }

  /** The same for one character. */
  lemma LowerOfUpperChar(c: char)
    ensures LowerChar(UpperChar(c)) == LowerChar(c) <==> !UppersIntoAscii(c)
  {
    if 'a' <= c <= 'z' {
      assert LowerChar(UpperChar(c)) == c;
    }
  }

  /** Lower-casing is idempotent. */
  lemma LowerIdempotent(s: string)
    ensures ToLower(ToLower(s)) == ToLower(s)
  {
    CaseMapsPerChar(s);
    CaseMapsPerChar(ToLower(s));
    forall i | 0 <= i < |s|
      ensures ToLower(ToLower(s))[i] == ToLower(s)[i]
    {
      var c := LowerChar(s[i]);
      assert !('A' <= c <= 'Z');
    }
  }

  // ---------------------------------------------------------------------------
  // Decimal digits (RE2's \d is ASCII only)
  // ---------------------------------------------------------------------------

  predicate IsDigit(c: char) {
    '0' <= c <= '9'
  }

  predicate AllDigits(s: string) {
    forall i :: 0 <= i < |s| ==> IsDigit(s[i])
  }

  function DigitValue(c: char): (v: nat)
    requires IsDigit(c)
    ensures v < 10
  {
    c as int - '0' as int
  }

  function DigitChar(v: nat): (c: char)
    requires v < 10
    ensures IsDigit(c) && DigitValue(c) == v
  {
    ('0' as int + v) as char
  }

  /** The number an all-digit string denotes, as Go's `strconv.Atoi` reads it. */
  function DecimalValue(s: string): nat
    requires AllDigits(s)
  {
    if s == [] then 0
    else DecimalValue(s[..|s| - 1]) * 10 + DigitValue(s[|s| - 1])
  }

  /** Decimal rendering of a natural number without leading zeros
      (`fmt.Sprintf("%d", n)` and `strconv.Itoa` for n >= 0). */
  function Itoa(n: nat): (r: string)
    ensures 1 <= |r|
    ensures AllDigits(r)
    ensures DecimalValue(r) == n
    ensures |r| > 1 ==> r[0] != '0'
    decreases n
  {
    if n < 10 then [DigitChar(n)]
    else
      var prefix := Itoa(n / 10);
      var r := prefix + [DigitChar(n % 10)];
      assert r[..|r| - 1] == prefix;
      r
  }

  /** Distinct numbers have distinct renderings. */
  lemma ItoaInjective(a: nat, b: nat)
    requires Itoa(a) == Itoa(b)
    ensures a == b
  {
  }

  /** Two-digit zero-padded rendering, Go's "01"/"02"/"15"/"04"/"05" layouts. */
  function Pad2(n: nat): string
    requires n < 100
  {
    [DigitChar(n / 10), DigitChar(n % 10)]
  }

  /** The two characters are the digits of `n`. */
  lemma Pad2Digits(n: nat)
    requires n < 100
    ensures |Pad2(n)| == 2 && AllDigits(Pad2(n)) && DecimalValue(Pad2(n)) == n
  {
    var r := Pad2(n);
    assert r[..1] == [DigitChar(n / 10)] && r[..1][..0] == [];
    assert DecimalValue(r[..1]) == n / 10;
    assert DecimalValue(r) == (n / 10) * 10 + n % 10;
  }

  /** Left-pads with '0' up to `width` characters. */
  function PadLeft(s: string, width: nat): (r: string)
    ensures |r| == if |s| < width then width else |s|
    ensures r[|r| - |s|..] == s
    ensures forall i :: 0 <= i < |r| - |s| ==> r[i] == '0'
  {
    if |s| < width then seq(width - |s|, _ => '0') + s else s
  }

  // ---------------------------------------------------------------------------
  // String order
  // ---------------------------------------------------------------------------

  /** Strict lexicographic order by character code. Go compares strings byte
      by byte in UTF-8; UTF-8 preserves code-point order, so for strings of
      Unicode scalar values the two orders agree. */
  predicate StrLess(a: string, b: string)
    decreases |a|
  {
    |b| > 0 && (|a| == 0 || a[0] < b[0] || (a[0] == b[0] && StrLess(a[1..], b[1..])))
  }

  lemma {:induction false} StrLessIrreflexive(a: string)
    ensures !StrLess(a, a)
    decreases |a|
  {
    if |a| > 0 {
      StrLessIrreflexive(a[1..]);
    }
  }

  lemma {:induction false} StrLessTransitive(a: string, b: string, c: string)
    requires StrLess(a, b) && StrLess(b, c)
    ensures StrLess(a, c)
    decreases |a|
  {
    if |a| > 0 && a[0] == b[0] && b[0] == c[0] {
      StrLessTransitive(a[1..], b[1..], c[1..]);
    }
  }

  lemma {:induction false} StrLessTotal(a: string, b: string)
    requires a != b
    ensures StrLess(a, b) || StrLess(b, a)
    decreases |a|
  {
    if |a| > 0 && |b| > 0 && a[0] == b[0] {
      assert a == [a[0]] + a[1..] && b == [b[0]] + b[1..];
      StrLessTotal(a[1..], b[1..]);
    }
  }

  lemma {:induction false} StrLessAsymmetric(a: string, b: string)
    requires StrLess(a, b)
    ensures !StrLess(b, a)
  {
    if StrLess(b, a) {
      StrLessTransitive(a, b, a);
      StrLessIrreflexive(a);
    }
  }
}
