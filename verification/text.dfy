/**
 * The string operations the modelled code calls: `trim`, ASCII
 * `toLowerCase`, `endsWith`, `join`, decimal rendering of a page number or a
 * status code, and the leftmost search for a fixed substring.
 *
 * Strings are sequences of characters, and lengths count characters rather
 * than UTF-16 code units (the two agree inside the Basic Multilingual Plane);
 * `trim` uses a fixed whitespace set (see `IsWhitespace`) and `toLowerCase`
 * folds only the ASCII letters.
 */
module Text {
  import opened Wrappers

  /**
   * The characters `String.prototype.trim` removes, restricted to the ASCII
   * white space and line terminators plus no-break space, the byte-order mark
   * and the two Unicode line/paragraph separators.
   */
  predicate IsWhitespace(c: char) {
    c in {' ', '\t', '\n', '\r', '\U{B}', '\U{C}', '\U{A0}', '\U{FEFF}', '\U{2028}', '\U{2029}'}
  }

  /** `s` with its leading white space removed. */
  function TrimStart(s: string): (r: string)
    ensures |r| <= |s| && r == s[|s| - |r|..]
    ensures forall i :: 0 <= i < |s| - |r| ==> IsWhitespace(s[i])
    ensures r == [] || !IsWhitespace(r[0])
    decreases |s|
  {
    if |s| > 0 && IsWhitespace(s[0]) then TrimStart(s[1..]) else s
  }

  /** `s` with its trailing white space removed. */
  function TrimEnd(s: string): (r: string)
    ensures |r| <= |s| && r == s[..|r|]
    ensures forall i :: |r| <= i < |s| ==> IsWhitespace(s[i])
    ensures r == [] || !IsWhitespace(r[|r| - 1])
    decreases |s|
  {
    if |s| > 0 && IsWhitespace(s[|s| - 1]) then TrimEnd(s[..|s| - 1]) else s
  }

  /** `s.trim()`. */
  function Trim(s: string): (r: string)
    ensures |r| <= |s|
    ensures r == [] || (!IsWhitespace(r[0]) && !IsWhitespace(r[|r| - 1]))
  {
    TrimEnd(TrimStart(s))
  }

  /** Trimming a string that begins with white space and then a visible character drops exactly that white space. */
  lemma TrimStartAfterBlank(blank: string, rest: string)
    requires forall i :: 0 <= i < |blank| ==> IsWhitespace(blank[i])
    requires |rest| > 0 && !IsWhitespace(rest[0])
    ensures TrimStart(blank + rest) == rest
  {
    var s := blank + rest;
    var r := TrimStart(s);
    var k := |s| - |r|;
    assert s[|blank|] == rest[0];
    assert k <= |blank|;
    assert r[0] == s[k];
    assert forall i :: 0 <= i < |blank| ==> s[i] == blank[i];
  }

  /** Trimming the end never cuts into a prefix that ends with a visible character. */
  lemma TrimEndKeepsPrefix(x: string, y: string)
    requires |x| > 0 && !IsWhitespace(x[|x| - 1])
    ensures |TrimEnd(x + y)| >= |x|
    ensures TrimEnd(x + y)[..|x|] == x
  {
    var s := x + y;
    var r := TrimEnd(s);
    assert s[|x| - 1] == x[|x| - 1];
    assert |r| >= |x|;
    assert r[..|x|] == s[..|x|];
  }

  /** Trimming a visible-ended string followed by white space drops exactly that white space. */
  lemma TrimEndBeforeBlank(x: string, blank: string)
    requires |x| > 0 && !IsWhitespace(x[|x| - 1])
    requires forall i :: 0 <= i < |blank| ==> IsWhitespace(blank[i])
    ensures TrimEnd(x + blank) == x
  {
    TrimEndKeepsPrefix(x, blank);
  }

  /** ASCII `toLowerCase` of one character. */
  function LowerChar(c: char): (r: char) {
    if 'A' <= c <= 'Z' then (c as int + 32) as char else c
  }

  /** `s.toLowerCase()` restricted to ASCII letters. */
  function ToLowerAscii(s: string): (r: string)
    ensures |r| == |s|
    ensures forall i :: 0 <= i < |s| ==> r[i] == LowerChar(s[i])
  {
    seq(|s|, i requires 0 <= i < |s| => LowerChar(s[i]))
  }

  /** `s.endsWith(suffix)`. */
  predicate EndsWith(s: string, suffix: string) {
    |suffix| <= |s| && s[|s| - |suffix|..] == suffix
  }

  /** `items.join(sep)`: the items in order, with `sep` between neighbours. */
  function Join(items: seq<string>, sep: string): (r: string)
    ensures items == [] ==> r == ""
    ensures |items| == 1 ==> r == items[0]
    decreases |items|
  {
    if |items| == 0 then ""
    else if |items| == 1 then items[0]
    else items[0] + sep + Join(items[1..], sep)
  }

  function DigitChar(d: nat): (r: char)
    requires d < 10
  {
    ('0' as int + d) as char
  }

  predicate IsDigit(c: char) {
    '0' <= c <= '9'
  }

  function DigitValue(c: char): (r: nat)
    requires IsDigit(c)
  {
    c as int - '0' as int
  }

  /** The decimal rendering of `n`, as a template literal `${n}` writes it. */
  function NatToString(n: nat): (r: string)
    ensures |r| >= 1
    ensures forall i :: 0 <= i < |r| ==> IsDigit(r[i])
    ensures n < 10 <==> |r| == 1
    ensures r[0] == '0' ==> n == 0
  {
    if n < 10 then [DigitChar(n)] else NatToString(n / 10) + [DigitChar(n % 10)]
  }

  /** The number a string of decimal digits denotes. */
  function ParseDecimal(s: string): (r: nat)
    requires forall i :: 0 <= i < |s| ==> IsDigit(s[i])
  {
    if |s| == 0 then 0 else ParseDecimal(s[..|s| - 1]) * 10 + DigitValue(s[|s| - 1])
  }

  /** Rendering a number in decimal loses nothing: reading it back gives the number. */
  lemma {:induction false} NatToStringRoundTrip(n: nat)
    ensures ParseDecimal(NatToString(n)) == n
  {
    var r := NatToString(n);
    if n >= 10 {
      NatToStringRoundTrip(n / 10);
      assert r[..|r| - 1] == NatToString(n / 10);
    }
  }

  /** `pat` occurs in `s` at index `k`. */
  predicate At(s: string, pat: string, k: int) {
    0 <= k && k + |pat| <= |s| && s[k..k + |pat|] == pat
  }

  /** `s.indexOf(pat, from)`: the leftmost occurrence of `pat` at or after `from`. */
  function IndexOf(s: string, pat: string, from: nat): (r: Option<nat>)
    ensures r.Some? ==> from <= r.value && At(s, pat, r.value)
    ensures r.Some? ==> forall j :: from <= j < r.value ==> !At(s, pat, j)
    ensures r.None? ==> forall j :: from <= j ==> !At(s, pat, j)
    decreases |s| - from
  {
    if from + |pat| > |s| then None
    else if s[from..from + |pat|] == pat then Some(from)
    else IndexOf(s, pat, from + 1)
  }
}
