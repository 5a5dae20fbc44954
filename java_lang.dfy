/**
 * The few pieces of java.lang the indexer relies on: the 32-bit `int`,
 * `String.valueOf(int)` (decimal rendering) and `String.equalsIgnoreCase`
 * restricted to ASCII. `Parse` and `IndexOf` are not used by the indexer:
 * they are proof helpers that read the page id back out of a uid or a key.
 */
module JavaLang {
  import opened Wrappers

  /** Java's `int`. */
  newtype Int32 = x: int | -0x8000_0000 <= x < 0x8000_0000

  // ---------------------------------------------------------------------------
  // Decimal rendering, as String.valueOf(int)
  // ---------------------------------------------------------------------------

  predicate IsDigit(c: char) {
    '0' <= c <= '9'
  }

  predicate AllDigits(s: string) {
    forall i :: 0 <= i < |s| ==> IsDigit(s[i])
  }

  /** A non-empty digit string without a superfluous leading zero. */
  predicate IsCanonicalNat(s: string) {
    |s| >= 1 && AllDigits(s) && (s[0] == '0' ==> |s| == 1)
  }

  function DigitChar(d: nat): (c: char)
    requires d < 10
    ensures IsDigit(c)
    ensures c as int - '0' as int == d
  {
    ('0' as int + d) as char
  }

  function DigitValue(c: char): (d: nat)
    requires IsDigit(c)
    ensures d < 10 && DigitChar(d) == c
  {
    c as int - '0' as int
  }

  /** The decimal digits of a natural number, most significant first. */
  function NatDigits(n: nat): (s: string)
    ensures IsCanonicalNat(s)
    ensures s[0] == '0' <==> n == 0
    decreases n
  {
    if n < 10 then [DigitChar(n)] else NatDigits(n / 10) + [DigitChar(n % 10)]
  }

  /** The value of a digit string (the inverse reading of NatDigits). */
  function DigitsValue(s: string): nat
    requires AllDigits(s)
  {
    if s == [] then 0 else DigitsValue(s[..|s| - 1]) * 10 + DigitValue(s[|s| - 1])
  }

  /** `String.valueOf(n)`: an optional minus sign followed by the digits of |n|. */
  function Render(n: int): (s: string)
    ensures |s| >= 1
    ensures s[0] == '-' <==> n < 0
    ensures forall i :: 0 <= i < |s| ==> IsDigit(s[i]) || (i == 0 && s[i] == '-')
  {
    if n < 0 then "-" + NatDigits(-n) else NatDigits(n)
  }

  /** Reads back exactly the strings Render produces. */
  function Parse(s: string): Option<int> {
    if |s| >= 2 && s[0] == '-' && IsCanonicalNat(s[1..]) && s[1..] != "0" then
      Some(-(DigitsValue(s[1..]) as int))
    else if IsCanonicalNat(s) then
      Some(DigitsValue(s))
    else
      None
  }

  /** Parse restricted to the range of a Java `int`. */
  function ParseInt32(s: string): Option<Int32> {
    match Parse(s)
    case Some(n) =>
      if -0x8000_0000 <= n < 0x8000_0000 then Some(n as Int32) else None
    case None => None
  }

  lemma {:induction false} NatDigitsRoundTrip(n: nat)
    ensures DigitsValue(NatDigits(n)) == n
    decreases n
  {
    if n >= 10 {
      var s := NatDigits(n);
      assert s[..|s| - 1] == NatDigits(n / 10);
      NatDigitsRoundTrip(n / 10);
    }
  }

  lemma {:induction false} LeadingNonZeroPositive(s: string)
    requires |s| >= 1 && AllDigits(s) && s[0] != '0'
    ensures DigitsValue(s) >= 1
    decreases |s|
  {
    if |s| > 1 {
      LeadingNonZeroPositive(s[..|s| - 1]);
    }
  }

  lemma {:induction false} DigitsValueRoundTrip(s: string)
    requires IsCanonicalNat(s)
    ensures NatDigits(DigitsValue(s)) == s
    decreases |s|
  {
    if |s| > 1 {
      var p := s[..|s| - 1];
      LeadingNonZeroPositive(p);
      DigitsValueRoundTrip(p);
      assert s == p + [s[|s| - 1]];
    }
  }

  /** Parsing undoes rendering, for every integer. */
  lemma ParseRender(n: int)
    ensures Parse(Render(n)) == Some(n)
  {
    var s := Render(n);
    if n < 0 {
      assert s[1..] == NatDigits(-n);
      NatDigitsRoundTrip(-n);
    } else {
      NatDigitsRoundTrip(n);
    }
  }

  /** Whatever parses is the rendering of the number it parses to. */
  lemma RenderParse(s: string, n: int)
    requires Parse(s) == Some(n)
    ensures Render(n) == s
  {
    if |s| >= 2 && s[0] == '-' && IsCanonicalNat(s[1..]) && s[1..] != "0" {
      DigitsValueRoundTrip(s[1..]);
      assert s == "-" + s[1..];
    } else {
      DigitsValueRoundTrip(s);
    }
  }

  lemma RenderInjective(a: int, b: int)
    requires Render(a) == Render(b)
    ensures a == b
  {
    ParseRender(a);
    ParseRender(b);
  }

  lemma ParseInt32Render(n: Int32)
    ensures ParseInt32(Render(n as int)) == Some(n)
  {
    ParseRender(n as int);
  }

  // ---------------------------------------------------------------------------
  // Searching for a character
  // ---------------------------------------------------------------------------

  /** The position of the first `c` in `s`, or |s| when there is none. */
  function IndexOf(s: string, c: char): (k: nat)
    ensures k <= |s|
    ensures k < |s| ==> s[k] == c
    ensures forall j :: 0 <= j < k ==> s[j] != c
    decreases |s|
  {
    if s == [] then 0
    else if s[0] == c then 0
    else 1 + IndexOf(s[1..], c)
  }

  /** In `a + b`, where `a` holds no `c` and `b` starts with one, the first `c` is at |a|. */
  lemma IndexOfAfterPrefix(a: string, b: string, c: char)
    requires forall j :: 0 <= j < |a| ==> a[j] != c
    requires |b| >= 1 && b[0] == c
    ensures IndexOf(a + b, c) == |a|
  {
    assert (a + b)[|a|] == c;
    assert forall j :: 0 <= j < |a| ==> (a + b)[j] == a[j];
  }

  // ---------------------------------------------------------------------------
  // String.equalsIgnoreCase, for ASCII letters
  // ---------------------------------------------------------------------------

  function ToUpperAscii(c: char): char {
    if 'a' <= c <= 'z' then (c as int - 32) as char else c
  }

  function ToLowerAscii(c: char): char {
    if 'A' <= c <= 'Z' then (c as int + 32) as char else c
  }

  /** The per-character test of `String.regionMatches(true, …)`. */
  predicate CharsEqualIgnoreCase(c1: char, c2: char) {
    c1 == c2
    || ToUpperAscii(c1) == ToUpperAscii(c2)
    || ToLowerAscii(ToUpperAscii(c1)) == ToLowerAscii(ToUpperAscii(c2))
  }

  /** `a.equalsIgnoreCase(b)`; a null argument gives false. */
  predicate EqualsIgnoreCase(a: string, b: Option<string>) {
    b.Some? && |a| == |b.value|
    && forall i :: 0 <= i < |a| ==> CharsEqualIgnoreCase(a[i], b.value[i])
  }
}
