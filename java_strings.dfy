/**
 * The parts of java.lang.String, java.lang.Character and java.lang.Integer that the
 * reconciler and the update checker rely on, over strings as sequences of characters.
 */
module JavaStrings {
  import opened Wrappers

  const MinInt: int := -0x8000_0000
  const MaxInt: int := 0x7FFF_FFFF

  /** Character.isWhitespace: the Unicode space, line and paragraph separators except the
      non-breaking ones (U+00A0, U+2007, U+202F), plus the ASCII controls TAB..CR and FS..US. */
  predicate IsWhitespace(c: char) {
    || ('\t' <= c <= '\r')
    || ('\U{1C}' <= c <= '\U{1F}')
    || c == ' '
    || c == '\U{1680}'
    || ('\U{2000}' <= c <= '\U{2006}')
    || ('\U{2008}' <= c <= '\U{200A}')
    || c == '\U{2028}' || c == '\U{2029}' || c == '\U{205F}' || c == '\U{3000}'
  }

  /** String.isBlank: empty or only whitespace. */
  predicate IsBlank(s: string) {
    forall i :: 0 <= i < |s| ==> IsWhitespace(s[i])
  }

  /** The first index at or after i that holds a character above U+0020, or |s|: the forward scan
      of String.trim. */
  function TrimFrom(s: string, i: nat): (lo: nat)
    requires i <= |s|
    ensures i <= lo <= |s|
    ensures forall k :: i <= k < lo ==> s[k] <= ' '
    ensures lo < |s| ==> s[lo] > ' '
    decreases |s| - i
  {
    if i < |s| && s[i] <= ' ' then TrimFrom(s, i + 1) else i
  }

  /** The index just past the last character above U+0020 in s[lo..j], or lo: the backward scan
      of String.trim. */
  function TrimTo(s: string, lo: nat, j: nat): (hi: nat)
    requires lo <= j <= |s|
    ensures lo <= hi <= j
    ensures forall k :: hi <= k < j ==> s[k] <= ' '
    ensures hi > lo ==> s[hi - 1] > ' '
  {
    if j > lo && s[j - 1] <= ' ' then TrimTo(s, lo, j - 1) else j
  }

  /** How many characters String.trim drops at the front of s. */
  function TrimOffset(s: string): (n: nat)
    ensures n <= |s|
  {
    TrimFrom(s, 0)
  }

  /** String.trim: the infix of s that neither starts nor ends with a character up to U+0020,
      cut out of s by dropping only such characters at both ends. */
  function Trim(s: string): (r: string)
    ensures TrimOffset(s) + |r| <= |s| && r == s[TrimOffset(s)..TrimOffset(s) + |r|]
    ensures r != [] ==> r[0] > ' ' && r[|r| - 1] > ' '
    ensures forall i :: 0 <= i < TrimOffset(s) ==> s[i] <= ' '
    ensures forall i :: TrimOffset(s) + |r| <= i < |s| ==> s[i] <= ' '
  {
    var lo := TrimFrom(s, 0);
    s[lo..TrimTo(s, lo, |s|)]
  }

  function Min(a: int, b: int): int {
    if a < b then a else b
  }

  /** s.substring(0, Math.min(n, s.length())). */
  function Prefix(s: string, n: nat): (r: string)
    ensures |r| == Min(n, |s|) && r <= s
  {
    s[..Min(n, |s|)]
  }

  /** Character.toLowerCase restricted to ASCII letters. */
  function AsciiLower(c: char): char {
    if 'A' <= c <= 'Z' then (c as int + 32) as char else c
  }

  /** String.toLowerCase restricted to ASCII letters. */
  function ToLowerAscii(s: string): (r: string)
    ensures |r| == |s|
  {
    seq(|s|, i requires 0 <= i < |s| => AsciiLower(s[i]))
  }

  /** String.equalsIgnoreCase restricted to ASCII letters. */
  predicate EqualsIgnoreCase(a: string, b: string) {
    |a| == |b| && forall i :: 0 <= i < |a| ==> AsciiLower(a[i]) == AsciiLower(b[i])
  }

  /** String.compareTo: the difference of the first differing characters, or else of the lengths. */
  function CompareTo(a: string, b: string): int {
    if a == [] || b == [] then |a| - |b|
    else if a[0] != b[0] then a[0] as int - b[0] as int
    else CompareTo(a[1..], b[1..])
  }

  lemma {:induction false} CompareToAntisymmetric(a: string, b: string)
    ensures CompareTo(a, b) == -CompareTo(b, a)
  {
    if a != [] && b != [] && a[0] == b[0] {
      CompareToAntisymmetric(a[1..], b[1..]);
    }
  }

  lemma {:induction false} CompareToZero(a: string, b: string)
    ensures CompareTo(a, b) == 0 <==> a == b
  {
    if a != [] && b != [] && a[0] == b[0] {
      CompareToZero(a[1..], b[1..]);
      assert a == [a[0]] + a[1..] && b == [b[0]] + b[1..];
    }
  }

  lemma {:induction false} CompareToTransitive(a: string, b: string, c: string)
    requires CompareTo(a, b) <= 0 && CompareTo(b, c) <= 0
    ensures CompareTo(a, c) <= 0
  {
    if a != [] && b != [] && c != [] && a[0] == b[0] && b[0] == c[0] {
      CompareToTransitive(a[1..], b[1..], c[1..]);
    }
  }

  /** A strict step followed by a weak one is strict. */
  lemma CompareToStrictTransitive(a: string, b: string, c: string)
    requires CompareTo(a, b) < 0 && CompareTo(b, c) <= 0
    ensures CompareTo(a, c) < 0
  {
    CompareToTransitive(a, b, c);
    CompareToZero(a, c);
    if a == c {
      CompareToAntisymmetric(b, c);
    }
  }

  predicate IsDigit(c: char) {
    '0' <= c <= '9'
  }

  predicate AllDigits(s: string) {
    forall i :: 0 <= i < |s| ==> IsDigit(s[i])
  }

  /** The value of a string of decimal digits, most significant first. */
  function DigitsValue(s: string): nat
    requires AllDigits(s)
  {
    if s == [] then 0 else DigitsValue(s[..|s| - 1]) * 10 + (s[|s| - 1] as int - '0' as int)
  }

  /** Integer.toString of a non-negative number. */
  function NatToString(n: nat): (r: string)
    ensures r != [] && AllDigits(r)
  {
    var d := ['0' + (n % 10) as char];
    if n < 10 then d else NatToString(n / 10) + d
  }

  lemma {:induction false} NatToStringValue(n: nat)
    ensures DigitsValue(NatToString(n)) == n
  {
    var s := NatToString(n);
    assert s[..|s| - 1] == if n < 10 then [] else NatToString(n / 10);
    if n >= 10 {
      NatToStringValue(n / 10);
    }
  }

  /** Different numbers print differently. */
  lemma NatToStringInjective(m: nat, n: nat)
    requires NatToString(m) == NatToString(n)
    ensures m == n
  {
    NatToStringValue(m);
    NatToStringValue(n);
  }

  /** Integer.parseInt(s) with radix 10: an optional sign and at least one ASCII digit, within
      the 32-bit range; anything else is a NumberFormatException, here None. */
  function ParseInt(s: string): (r: Option<int>)
    ensures r.Some? ==> MinInt <= r.value <= MaxInt
    ensures r.Some? ==> s != [] && AllDigits(if s[0] == '-' || s[0] == '+' then s[1..] else s)
  {
    if s == [] then None
    else
      var negative := s[0] == '-';
      var digits := if s[0] == '-' || s[0] == '+' then s[1..] else s;
      if digits == [] || !AllDigits(digits) then None
      else
        var magnitude: int := DigitsValue(digits);
        var v := if negative then -magnitude else magnitude;
        if MinInt <= v <= MaxInt then Some(v) else None
  }

  /** Integer.parseInt reads back what Integer.toString wrote. */
  lemma ParseIntRoundTrip(n: nat)
    requires n <= MaxInt
    ensures ParseInt(NatToString(n)) == Some(n)
    ensures ParseInt("-" + NatToString(n)) == Some(-(n as int))
  {
    NatToStringValue(n);
    var s := NatToString(n);
    assert ("-" + s)[1..] == s;
  }
}
