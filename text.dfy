/**
 * Character classes and small string functions shared by the model:
 * ASCII digits and whitespace, the Docker tag alphabet, decimal
 * numerals, and `str::replace` for a single character.
 */
module Text {

  /** `[0-9]` */
  predicate IsDigit(c: char) {
    '0' <= c <= '9'
  }

  /** `\s`, taken as ASCII whitespace: `[\t\n\v\f\r ]`. */
  predicate IsWs(c: char) {
    c == ' ' || c == '\t' || c == '\n' || c as int == 11 || c as int == 12 || c == '\r'
  }

  /** The characters Docker allows in an image tag: `[A-Za-z0-9_.-]`. */
  predicate IsDockerChar(c: char) {
    ('a' <= c <= 'z') || ('A' <= c <= 'Z') || IsDigit(c) || c == '_' || c == '.' || c == '-'
  }

  predicate IsDockerTag(s: string) {
    forall i :: 0 <= i < |s| ==> IsDockerChar(s[i])
  }

  predicate AllWsIn(s: string, a: nat, b: nat) {
    a <= b <= |s| && forall k :: a <= k < b ==> IsWs(s[k])
  }

  predicate NoWsIn(s: string, a: nat, b: nat) {
    a <= b <= |s| && forall k :: a <= k < b ==> !IsWs(s[k])
  }

  predicate NoNewlineIn(s: string, a: nat, b: nat) {
    a <= b <= |s| && forall k :: a <= k < b ==> s[k] != '\n'
  }

  /** The end of the run of whitespace starting at `i`. */
  function SkipWs(s: string, i: nat): (j: nat)
    requires i <= |s|
    ensures AllWsIn(s, i, j) && (j < |s| ==> !IsWs(s[j]))
    decreases |s| - i
  {
    if i == |s| || !IsWs(s[i]) then i else SkipWs(s, i + 1)
  }

  /** The end of the run of non-whitespace starting at `i`. */
  function SkipNonWs(s: string, i: nat): (j: nat)
    requires i <= |s|
    ensures NoWsIn(s, i, j) && (j < |s| ==> IsWs(s[j]))
    decreases |s| - i
  {
    if i == |s| || IsWs(s[i]) then i else SkipNonWs(s, i + 1)
  }

  predicate AllDigits(s: string) {
    forall i :: 0 <= i < |s| ==> IsDigit(s[i])
  }

  /** Length of the maximal run of digits at the start of `s`. */
  function DigitPrefixLen(s: string): (n: nat)
    ensures n <= |s|
    ensures AllDigits(s[..n])
    ensures n < |s| ==> !IsDigit(s[n])
  {
    if s == [] || !IsDigit(s[0]) then 0 else 1 + DigitPrefixLen(s[1..])
  }

  /** Any all-digit prefix of `s` lies inside the maximal leading digit run. */
  lemma {:induction false} DigitPrefixLenMaximal(s: string, k: nat)
    requires k <= |s| && AllDigits(s[..k])
    ensures k <= DigitPrefixLen(s)
  {
    if k > 0 {
      assert IsDigit(s[0]) by { assert s[..k][0] == s[0]; }
      assert s[1..][..k - 1] == s[..k][1..];
      DigitPrefixLenMaximal(s[1..], k - 1);
    }
  }

  function DigitValue(c: char): (d: nat)
    requires IsDigit(c)
    ensures d < 10
  {
    (c as int) - ('0' as int)
  }

  function DigitChar(d: nat): (c: char)
    requires d < 10
    ensures IsDigit(c) && DigitValue(c) == d
  {
    (('0' as int) + d) as char
  }

  /** The value of a decimal numeral, as `str::parse` reads it (leading zeros allowed). */
  function DecimalValue(s: string): nat
    requires AllDigits(s)
  {
    if s == [] then 0 else 10 * DecimalValue(s[..|s| - 1]) + DigitValue(s[|s| - 1])
  }

  /** The decimal numeral of `n`, as `{}` formats an unsigned integer. */
  function NatToDecimal(n: nat): (s: string)
    ensures |s| > 0 && AllDigits(s)
    ensures |s| > 1 ==> s[0] != '0'
  {
    if n < 10 then [DigitChar(n)] else NatToDecimal(n / 10) + [DigitChar(n % 10)]
  }

  /** Reading back the numeral written for `n` gives `n`. */
  lemma {:induction false} DecimalRoundTrip(n: nat)
    ensures DecimalValue(NatToDecimal(n)) == n
  {
    var s := NatToDecimal(n);
    if n >= 10 {
      DecimalRoundTrip(n / 10);
      assert s[..|s| - 1] == NatToDecimal(n / 10);
    }
  }

  /** Concatenation regrouped; stated once so that proofs can cite it instead of rediscovering it. */
  lemma AppendAssoc(x: string, y: string, z: string)
    ensures x + (y + z) == (x + y) + z
  {
  }

  /** `s.replace(from, to)` for a single character `from`. */
  function Replace(s: string, from: char, to: string): (r: string)
    ensures from !in s ==> r == s
  {
    if s == [] then []
    else (if s[0] == from then to else [s[0]]) + Replace(s[1..], from, to)
  }

  lemma {:induction false} ReplaceAppend(a: string, b: string, from: char, to: string)
    ensures Replace(a + b, from, to) == Replace(a, from, to) + Replace(b, from, to)
  {
    if a == [] {
      assert a + b == b;
    } else {
      assert (a + b)[0] == a[0];
      assert (a + b)[1..] == a[1..] + b;
      ReplaceAppend(a[1..], b, from, to);
    }
  }
}
