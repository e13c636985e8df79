/**
 * String helpers shared by the server and the page script: trimming of
 * surrounding whitespace (Python's `str.strip()` and JavaScript's
 * `String.prototype.trim()`) and the decimal rendering of a count inside a
 * template literal.
 */
module Text {

  /** The characters for which Python's `str.isspace()` holds: the ones `str.strip()` removes. */
  const PythonSpace: set<char> := {
    ' ', '\t', '\n', '\r', '\U{000B}', '\U{000C}', '\U{001C}', '\U{001D}', '\U{001E}', '\U{001F}',
    '\U{0085}', '\U{00A0}', '\U{1680}', '\U{2000}', '\U{2001}', '\U{2002}', '\U{2003}', '\U{2004}', '\U{2005}', '\U{2006}', '\U{2007}', '\U{2008}', '\U{2009}', '\U{200A}',
    '\U{2028}', '\U{2029}', '\U{202F}', '\U{205F}', '\U{3000}'
  }

  /** The WhiteSpace and LineTerminator code points of ECMAScript: the ones `trim()` removes. */
  const JsSpace: set<char> := {
    ' ', '\t', '\n', '\r', '\U{000B}', '\U{000C}', '\U{00A0}', '\U{1680}', '\U{2000}', '\U{2001}', '\U{2002}', '\U{2003}', '\U{2004}', '\U{2005}', '\U{2006}', '\U{2007}', '\U{2008}', '\U{2009}', '\U{200A}',
    '\U{2028}', '\U{2029}', '\U{202F}', '\U{205F}', '\U{3000}', '\U{FEFF}'
  }

  /** True when every character of `s` is whitespace (in particular when `s` is empty). */
  predicate AllSpace(s: string, ws: set<char>) {
    forall i | 0 <= i < |s| :: s[i] in ws
  }

  /** `s` without its leading whitespace. */
  function TrimStart(s: string, ws: set<char>): (r: string)
    ensures |r| <= |s| && r == s[|s| - |r|..]
    ensures AllSpace(s[..|s| - |r|], ws)
    ensures r != [] ==> r[0] !in ws
  {
    if s != [] && s[0] in ws then TrimStart(s[1..], ws) else s
  }

  /** `s` without its trailing whitespace. */
  function TrimEnd(s: string, ws: set<char>): (r: string)
    ensures |r| <= |s| && r == s[..|r|]
    ensures AllSpace(s[|r|..], ws)
    ensures r != [] ==> r[|r| - 1] !in ws
  {
    if s != [] && s[|s| - 1] in ws then TrimEnd(s[..|s| - 1], ws) else s
  }

  /** The number of whitespace characters `s` starts with. */
  function LeadingSpace(s: string, ws: set<char>): (n: nat)
    ensures n <= |s|
  {
    |s| - |TrimStart(s, ws)|
  }

  /**
   * `s` without whitespace at either end: `s` is the whitespace it starts
   * with, then the result, then whitespace; the result is empty exactly when
   * `s` holds nothing but whitespace, and otherwise starts and ends with a
   * character that is not whitespace.
   */
  function Trim(s: string, ws: set<char>): (r: string)
    ensures var n := LeadingSpace(s, ws);
      && n + |r| <= |s| && r == s[n..n + |r|]
      && AllSpace(s[..n], ws) && AllSpace(s[n + |r|..], ws)
    ensures r == [] <==> AllSpace(s, ws)
    ensures r != [] ==> r[0] !in ws && r[|r| - 1] !in ws
  {
    var front := TrimStart(s, ws);
    var r := TrimEnd(front, ws);
    TrimSplits(s, front, r, ws);
    r
  }

  /** Cutting `s` into leading whitespace, `r` and trailing whitespace. */
  lemma TrimSplits(s: string, front: string, r: string, ws: set<char>)
    requires |front| <= |s| && front == s[|s| - |front|..]
    requires |r| <= |front| && r == front[..|r|]
    requires AllSpace(s[..|s| - |front|], ws) && AllSpace(front[|r|..], ws)
    requires front != [] ==> front[0] !in ws
    requires r != [] ==> r[|r| - 1] !in ws
    ensures var n := |s| - |front|;
      && s[n..n + |r|] == r && s[n + |r|..] == front[|r|..]
      && AllSpace(s[..n], ws) && AllSpace(s[n + |r|..], ws)
      && (r == [] <==> AllSpace(s, ws))
      && (r != [] ==> r[0] !in ws && r[|r| - 1] !in ws)
  {
    assert s == s[..|s| - |front|] + front;
  }

  /** Python's `s.strip()`. */
  function PyStrip(s: string): (r: string)
    ensures r == [] <==> AllSpace(s, PythonSpace)
  {
    Trim(s, PythonSpace)
  }

  /** JavaScript's `s.trim()`. */
  function JsTrim(s: string): (r: string)
    ensures r == [] <==> AllSpace(s, JsSpace)
  {
    Trim(s, JsSpace)
  }

  predicate IsDigit(c: char) {
    '0' <= c <= '9'
  }

  predicate AllDigits(s: string) {
    forall i | 0 <= i < |s| :: IsDigit(s[i])
  }

  function DigitChar(d: nat): (c: char)
    requires d < 10
    ensures IsDigit(c) && c as int - '0' as int == d
  {
    ['0', '1', '2', '3', '4', '5', '6', '7', '8', '9'][d]
  }

  /**
   * The decimal numeral that a template literal `${n}` produces for a
   * non-negative integer: digits only, at least one, no leading zero.
   */
  function Decimal(n: nat): (r: string)
    ensures r != [] && AllDigits(r)
    ensures r[0] == '0' ==> n == 0 && r == "0"
  {
    if n < 10 then [DigitChar(n)] else Decimal(n / 10) + [DigitChar(n % 10)]
  }

  /** The number a numeral of decimal digits denotes. */
  function DecimalValue(s: string): nat
    requires AllDigits(s)
  {
    if s == [] then 0 else 10 * DecimalValue(s[..|s| - 1]) + (s[|s| - 1] as int - '0' as int)
  }

  /** Reading back the numeral of `n` gives `n`. */
  lemma {:induction false} DecimalRoundTrip(n: nat)
    ensures DecimalValue(Decimal(n)) == n
  {
    if n >= 10 {
      var r := Decimal(n);
      assert r[..|r| - 1] == Decimal(n / 10);
      DecimalRoundTrip(n / 10);
    }
  }

  /** Distinct numbers have distinct numerals. */
  lemma DecimalInjective(m: nat, n: nat)
    requires Decimal(m) == Decimal(n)
    ensures m == n
  {
    DecimalRoundTrip(m);
    DecimalRoundTrip(n);
  }

  /** The number of digits `s` starts with. */
  function DigitRun(s: string): (n: nat)
    ensures n <= |s|
  {
    if s != [] && IsDigit(s[0]) then 1 + DigitRun(s[1..]) else 0
  }

  lemma {:induction false} DigitRunOf(d: string, x: string)
    requires AllDigits(d) && x != [] && !IsDigit(x[0])
    ensures DigitRun(d + x) == |d|
  {
    if d != [] {
      assert (d + x)[1..] == d[1..] + x;
      DigitRunOf(d[1..], x);
    } else {
      assert d + x == x;
    }
  }

  /**
   * A numeral followed by text that starts with a non-digit can be split off
   * again: when two such strings are equal, the numerals and the rests agree.
   */
  lemma NumeralPrefixUnique(d1: string, x1: string, d2: string, x2: string)
    requires AllDigits(d1) && AllDigits(d2)
    requires x1 != [] && !IsDigit(x1[0]) && x2 != [] && !IsDigit(x2[0])
    requires d1 + x1 == d2 + x2
    ensures d1 == d2 && x1 == x2
  {
    DigitRunOf(d1, x1);
    DigitRunOf(d2, x2);
    assert d1 == (d1 + x1)[..|d1|];
    assert d2 == (d2 + x2)[..|d2|];
    assert x1 == (d1 + x1)[|d1|..];
    assert x2 == (d2 + x2)[|d2|..];
  }
}
