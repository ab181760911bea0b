/**
  The Python 2.7 string builtins the importer relies on, restricted to what
  the spreadsheet rows can feed them: `unicode.strip()`, `unicode.upper()`,
  `u'{0:.0f}'.format(n)` on a whole number, and `int(text)` in base 10.
 */
module PyText {
  import opened Wrappers

  /** The characters Python 2.7 treats as white space in a unicode string
      (both `strip()` and `int()` skip them). */
  predicate IsSpace(c: char) {
    ('\t' <= c <= '\r') || ('\U{1C}' <= c <= '\U{1F}') || c == ' '
    || c == '\U{85}' || c == '\U{A0}' || c == '\U{1680}' || c == '\U{180E}'
    || ('\U{2000}' <= c <= '\U{200A}') || c == '\U{2028}' || c == '\U{2029}'
    || c == '\U{202F}' || c == '\U{205F}' || c == '\U{3000}'
  }

  predicate IsDigit(c: char) {
    '0' <= c <= '9'
  }

  predicate AllDigits(s: string) {
    forall k | 0 <= k < |s| :: IsDigit(s[k])
  }

  // ---------------------------------------------------------------------
  // strip()
  // ---------------------------------------------------------------------

  /** `s` without its leading white space. */
  function TrimStart(s: string): (r: string)
    ensures |r| <= |s| && r == s[|s| - |r|..]
    ensures r == [] || !IsSpace(r[0])
    ensures forall k | 0 <= k < |s| - |r| :: IsSpace(s[k])
  {
    if s != [] && IsSpace(s[0]) then TrimStart(s[1..]) else s
  }

  /** `s` without its trailing white space. */
  function TrimEnd(s: string): (r: string)
    ensures |r| <= |s| && r == s[..|r|]
    ensures r == [] || !IsSpace(r[|r| - 1])
    ensures forall k | |r| <= k < |s| :: IsSpace(s[k])
  {
    if s != [] && IsSpace(s[|s| - 1]) then TrimEnd(s[..|s| - 1]) else s
  }

  /** How many white-space characters `strip()` removes from the front of `s`. */
  function LeadingSpace(s: string): nat
  {
    |s| - |TrimStart(s)|
  }

  /** `s.strip()`: the result is the slice of `s` left once the white space
      at both ends is removed, and neither of its ends is white space. */
  function Strip(s: string): (r: string)
    ensures LeadingSpace(s) + |r| <= |s|
    ensures r == s[LeadingSpace(s)..LeadingSpace(s) + |r|]
    ensures forall k | 0 <= k < LeadingSpace(s) :: IsSpace(s[k])
    ensures forall k | LeadingSpace(s) + |r| <= k < |s| :: IsSpace(s[k])
    ensures r == [] || (!IsSpace(r[0]) && !IsSpace(r[|r| - 1]))
  {
    TrimEnd(TrimStart(s))
  }

  /** A string with no white space is left as it is by `strip()`. */
  lemma StripWithoutSpace(s: string)
    requires forall k | 0 <= k < |s| :: !IsSpace(s[k])
    ensures Strip(s) == s
  {
    assert TrimStart(s) == s;
    assert TrimEnd(s) == s;
  }

  /** `strip()` is idempotent. */
  lemma StripIdempotent(s: string)
    ensures Strip(Strip(s)) == Strip(s)
  {
    var r := Strip(s);
    if r != [] {
      assert TrimStart(r) == r;
      assert TrimEnd(r) == r;
    }
  }

  /** `strip()` yields the empty string exactly when every character is
      white space. */
  lemma StripEmpty(s: string)
    ensures Strip(s) == [] <==> forall k | 0 <= k < |s| :: IsSpace(s[k])
  {
    var r := Strip(s);
    assert r == [] || r[0] == s[LeadingSpace(s)];
  }

  // ---------------------------------------------------------------------
  // upper()
  // ---------------------------------------------------------------------

  /** Upper-case mapping of one character, for ASCII and Latin-1 letters. */
  function UpperChar(c: char): (u: char)
    ensures !('a' <= u <= 'z')
    ensures 'a' <= c <= 'z' ==> u as int == c as int - 32
    ensures !('a' <= c <= 'z') && c < '\U{B5}' ==> u == c
    ensures '\U{E0}' <= c <= '\U{FE}' && c != '\U{F7}' ==> u as int == c as int - 32
    ensures c == '\U{FF}' ==> u == '\U{178}'
    ensures c == '\U{B5}' ==> u == '\U{39C}'
  {
    if 'a' <= c <= 'z' || ('\U{E0}' <= c <= '\U{FE}' && c != '\U{F7}') then (c as int - 32) as char
    else if c == '\U{FF}' then '\U{178}'
    else if c == '\U{B5}' then '\U{39C}'
    else c
  }

  /** `s.upper()`, character by character. */
  function Upper(s: string): (r: string)
    ensures |r| == |s|
    ensures forall k | 0 <= k < |r| :: !('a' <= r[k] <= 'z')
    ensures forall k | 0 <= k < |s| ::
      if 'a' <= s[k] <= 'z' then r[k] as int == s[k] as int - 32
      else s[k] < '\U{B5}' ==> r[k] == s[k]
  {
    seq(|s|, k requires 0 <= k < |s| => UpperChar(s[k]))
  }

  /** Upper-casing twice is upper-casing once. */
  lemma UpperIdempotent(s: string)
    ensures Upper(Upper(s)) == Upper(s)
  {
    var u := Upper(s);
    forall k | 0 <= k < |s|
      ensures UpperChar(u[k]) == u[k]
    {
      var c := s[k];
      if '\U{E0}' <= c <= '\U{FE}' && c != '\U{F7}' {
        assert '\U{C0}' <= u[k] <= '\U{DE}';
      }
    }
  }

  // ---------------------------------------------------------------------
  // u'{0:.0f}'.format(n) and int(text)
  // ---------------------------------------------------------------------

  function DigitChar(d: nat): (c: char)
    requires d < 10
    ensures IsDigit(c)
  {
    (d + '0' as int) as char
  }

  function DigitValue(c: char): nat
    requires IsDigit(c)
  {
    c as int - '0' as int
  }

  /** Decimal digits of `n`, most significant first, with no leading zero. */
  function Digits(n: nat): (r: string)
    ensures r != [] && AllDigits(r)
    ensures |r| > 1 ==> r[0] != '0'
    ensures r[0] == '0' <==> n == 0
  {
    if n < 10 then [DigitChar(n)] else Digits(n / 10) + [DigitChar(n % 10)]
  }

  /** `u'{0:.0f}'.format(n)` for a whole number `n`: its decimal numeral,
      with a minus sign when negative and no decimal point. */
  function Decimal(n: int): (r: string)
    ensures r != []
    ensures n >= 0 ==> AllDigits(r)
    ensures n < 0 ==> r[0] == '-' && r[1..] != [] && AllDigits(r[1..])
    ensures n == 0 ==> r == "0"
    ensures n != 0 ==> r[if n < 0 then 1 else 0] != '0'
    ensures '.' !in r
  {
    if n < 0 then "-" + Digits(-n) else Digits(n)
  }

  /** Value of a string of decimal digits. */
  function DigitsValue(s: string): nat
    requires AllDigits(s)
  {
    if s == [] then 0 else 10 * DigitsValue(s[..|s| - 1]) + DigitValue(s[|s| - 1])
  }

  /** `int(s)` on a unicode string: surrounding white space is ignored, then
      an optional sign and at least one decimal digit; anything else raises
      (`None`). */
  function ParseInt(s: string): Option<int>
  {
    ParseNumeral(Strip(s))
  }

  /** An optional sign followed by at least one decimal digit, and nothing else. */
  function ParseNumeral(t: string): Option<int>
  {
    if t != [] && (t[0] == '-' || t[0] == '+') then
      var d := t[1..];
      if d != [] && AllDigits(d) then
        Some(if t[0] == '-' then -(DigitsValue(d) as int) else DigitsValue(d))
      else None
    else if t != [] && AllDigits(t) then Some(DigitsValue(t))
    else None
  }

  lemma {:induction false} DigitsRoundTrip(n: nat)
    ensures DigitsValue(Digits(n)) == n
  {
    if n >= 10 {
      DigitsRoundTrip(n / 10);
      var s := Digits(n);
      assert s[..|s| - 1] == Digits(n / 10);
    }
  }

  /** Parsing the formatted numeral gives the number back:
      `int(u'{0:.0f}'.format(n)) == n` for every whole `n`. */
  lemma ParseDecimal(n: int)
    ensures ParseInt(Decimal(n)) == Some(n)
  {
    DecimalIsStripped(n);
    if n < 0 {
      DigitsRoundTrip(-n);
      ParseNegative(Digits(-n));
    } else {
      DigitsRoundTrip(n);
      ParseUnsigned(Digits(n));
    }
  }

  lemma ParseNegative(d: string)
    requires d != [] && AllDigits(d)
    ensures ParseNumeral("-" + d) == Some(-(DigitsValue(d) as int))
  {
    assert ("-" + d)[1..] == d;
  }

  lemma ParseUnsigned(d: string)
    requires d != [] && AllDigits(d)
    ensures ParseNumeral(d) == Some(DigitsValue(d))
  {
    assert IsDigit(d[0]);
  }

  /** A numeral carries no white space for `strip()` to remove. */
  lemma DecimalIsStripped(n: int)
    ensures Strip(Decimal(n)) == Decimal(n)
  {
    var s := Decimal(n);
    forall k | 0 <= k < |s|
      ensures !IsSpace(s[k])
    {
      if k > 0 || n >= 0 {
        assert IsDigit(s[k]);
      }
    }
    StripWithoutSpace(s);
  }

  /** Two different numbers never format to the same numeral. */
  lemma DecimalInjective(m: int, n: int)
    requires Decimal(m) == Decimal(n)
    ensures m == n
  {
    ParseDecimal(m);
    ParseDecimal(n);
  }

  /** Upper-casing leaves a numeral unchanged. */
  lemma UpperDecimal(n: int)
    ensures Upper(Decimal(n)) == Decimal(n)
  {
    var s := Decimal(n);
    forall k | 0 <= k < |s|
      ensures Upper(s)[k] == s[k]
    {
      if k > 0 || n >= 0 {
        assert IsDigit(s[k]);
      }
    }
  }
}
