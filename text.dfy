/**
 * Character and string helpers shared by the catalog page and the upload
 * script. Strings are `seq<char>`; case mapping is ASCII only, which is exact
 * for the title step (a JavaScript `\w` without the `u` flag matches only
 * ASCII word characters) and an approximation for `toLowerCase`.
 */
module Text {
  import opened Wrappers

  /** A character matched by the regular-expression class `\w`: `[A-Za-z0-9_]`. */
  predicate IsWord(c: char) {
    ('A' <= c <= 'Z') || ('a' <= c <= 'z') || ('0' <= c <= '9') || c == '_'
  }

  predicate IsAsciiLower(c: char) { 'a' <= c <= 'z' }

  predicate IsAsciiUpper(c: char) { 'A' <= c <= 'Z' }

  /** `toUpperCase` on one character, restricted to ASCII. */
  function Upper(c: char): (u: char)
    ensures IsAsciiLower(c) ==> IsAsciiUpper(u) && u as int == c as int - 32
    ensures !IsAsciiLower(c) ==> u == c
  {
    if IsAsciiLower(c) then (c as int - 32) as char else c
  }

  /** `toLowerCase` on one character, restricted to ASCII. */
  function Lower(c: char): (l: char)
    ensures IsAsciiUpper(c) ==> IsAsciiLower(l) && l as int == c as int + 32
    ensures !IsAsciiUpper(c) ==> l == c
  {
    if IsAsciiUpper(c) then (c as int + 32) as char else c
  }

  /** Upper-casing first never changes what lower-casing gives. */
  lemma LowerOfUpper(c: char)
    ensures Lower(Upper(c)) == Lower(c)
  {
  }

  /** `s.toLowerCase()` (ASCII letters only). */
  function LowerAll(s: string): (r: string)
    ensures |r| == |s|
    ensures forall i :: 0 <= i < |s| ==> r[i] == Lower(s[i])
  {
    seq(|s|, i requires 0 <= i < |s| => Lower(s[i]))
  }

  /** `pat` occurs in `s` starting at index `k`. */
  predicate OccursAt(s: string, pat: string, k: nat) {
    k + |pat| <= |s| && forall j :: 0 <= j < |pat| ==> s[k + j] == pat[j]
  }

  /**
   * The index of the leftmost occurrence of `pat` in `s`, as
   * `String.prototype.indexOf` finds it, or None when there is none.
   */
  function IndexOf(s: string, pat: string): (r: Option<nat>)
    ensures r.Some? ==> OccursAt(s, pat, r.value)
    ensures r.Some? ==> forall k: nat :: k < r.value ==> !OccursAt(s, pat, k)
    ensures r.None? ==> forall k: nat :: !OccursAt(s, pat, k)
  {
    if |s| < |pat| then
      None
    else if OccursAt(s, pat, 0) then
      Some(0)
    else
      OccursAtShift(s, pat);
      match IndexOf(s[1..], pat)
      case None => None
      case Some(j) => Some(j + 1)
  }

  /** Past the first character, an occurrence in `s` is one in `s[1..]`, one position earlier. */
  lemma OccursAtShift(s: string, pat: string)
    requires s != [] && !OccursAt(s, pat, 0)
    ensures forall k: nat :: OccursAt(s, pat, k) <==> k > 0 && OccursAt(s[1..], pat, k - 1)
  {
    forall k: nat | k > 0
      ensures OccursAt(s, pat, k) <==> OccursAt(s[1..], pat, k - 1)
    {
      assert forall j :: 0 <= j < |s| - 1 ==> s[1..][j] == s[j + 1];
    }
  }

  /** `s.replace(pat, with)` with a string pattern: only the leftmost occurrence is replaced. */
  function ReplaceFirst(s: string, pat: string, with: string): (r: string)
    ensures IndexOf(s, pat).None? ==> r == s
    ensures IndexOf(s, pat).Some? ==> |r| == |s| - |pat| + |with|
    ensures IndexOf(s, pat).Some? ==> r[..IndexOf(s, pat).value] == s[..IndexOf(s, pat).value]
  {
    match IndexOf(s, pat)
    case None => s
    case Some(k) => s[..k] + with + s[k + |pat|..]
  }

  predicate EndsWith(s: string, suffix: string) {
    |suffix| <= |s| && s[|s| - |suffix|..] == suffix
  }

  function Digit(d: nat): (c: char)
    requires d < 10
    ensures '0' <= c <= '9'
  {
    ('0' as int + d) as char
  }

  /** The decimal rendering of `n`, as a template literal `${n}` writes a non-negative integer. */
  function Decimal(n: nat): (r: string)
    ensures 1 <= |r|
    ensures AllDigits(r)
    ensures r[|r| - 1] == Digit(n % 10)
    ensures n >= 10 <==> |r| >= 2
  {
    if n < 10 then [Digit(n)] else Decimal(n / 10) + [Digit(n % 10)]
  }

  predicate AllDigits(s: string) {
    forall i :: 0 <= i < |s| ==> '0' <= s[i] <= '9'
  }

  /** The number a string of decimal digits denotes, read most significant digit first. */
  function DigitsValue(s: string): nat
    requires AllDigits(s)
  {
    if s == [] then 0 else DigitsValue(s[..|s| - 1]) * 10 + (s[|s| - 1] as int - '0' as int)
  }

  /** `Decimal(n)` is the decimal numeral of `n`: its digits denote `n`, with no leading zero. */
  lemma {:induction false} DecimalValue(n: nat)
    ensures DigitsValue(Decimal(n)) == n
    ensures n >= 10 ==> Decimal(n)[0] != '0'
  {
    if n >= 10 {
      DecimalValue(n / 10);
      var d := Decimal(n);
      assert d[..|d| - 1] == Decimal(n / 10);
      assert d[0] == Decimal(n / 10)[0];
    }
  }

  /** Different numbers have different decimal renderings. */
  lemma DecimalInjective(a: nat, b: nat)
    requires Decimal(a) == Decimal(b)
    ensures a == b
  {
    DecimalValue(a);
    DecimalValue(b);
  }
}
