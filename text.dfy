/**
 * String helpers with the behaviour of the Python 2 built-ins the source
 * relies on: `str.split()`, `str.split(sep)`, `str.strip()`, `'%x' % n`,
 * `'%d' % n`, `str(n)` and `int(s, 16)`.
 */
module Text {

  /** `str.isspace()` for a byte string: the separators of `split()` and `strip()`. */
  predicate IsWhitespace(c: char) {
    c == ' ' || c == '\t' || c == '\n' || c == '\r' || c == '\U{B}' || c == '\U{C}'
  }

  /** The character class `[ \t]` of the listing parser's regular expressions. */
  predicate IsBlank(c: char) {
    c == ' ' || c == '\t'
  }

  predicate StartsWith(s: string, prefix: string) {
    |prefix| <= |s| && s[..|prefix|] == prefix
  }

  predicate EndsWith(s: string, suffix: string) {
    |suffix| <= |s| && s[|s| - |suffix|..] == suffix
  }

  /** `s.find(sub) >= 0`: `sub` occurs somewhere in `s`. */
  predicate Contains(s: string, sub: string)
    decreases |s|
  {
    StartsWith(s, sub) || (s != [] && Contains(s[1..], sub))
  }

  // ---------------------------------------------------------------------
  // Digits: '%x', '%d', str() and int(s, 16)
  // ---------------------------------------------------------------------

  predicate IsHexChar(c: char) {
    ('0' <= c <= '9') || ('a' <= c <= 'f') || ('A' <= c <= 'F')
  }

  /** The value of one hexadecimal (or decimal) digit, either case. */
  function DigitValue(c: char): (d: nat)
    requires IsHexChar(c)
    ensures d < 16
    ensures '0' <= c <= '9' ==> d < 10
  {
    if '0' <= c <= '9' then c as int - '0' as int
    else if 'a' <= c <= 'f' then c as int - 'a' as int + 10
    else c as int - 'A' as int + 10
  }

  /** The lower-case digit Python prints for `d`. */
  function DigitChar(d: nat): (c: char)
    requires d < 16
    ensures IsHexChar(c) && DigitValue(c) == d
  {
    if d < 10 then ('0' as int + d) as char else ('a' as int + d - 10) as char
  }

  predicate IsDigitString(s: string, base: nat)
    requires 2 <= base <= 16
  {
    forall i :: 0 <= i < |s| ==> IsHexChar(s[i]) && DigitValue(s[i]) < base
  }

  /** The digits of `n` in `base`, most significant first, without leading zeros. */
  function Digits(n: nat, base: nat): (s: string)
    requires 2 <= base <= 16
    ensures |s| > 0 && IsDigitString(s, base)
    decreases n
  {
    if n < base then [DigitChar(n)]
    else
      DivMod(n, base);
      var high := Digits(n / base, base);
      var s := high + [DigitChar(n % base)];
      assert forall i :: 0 <= i < |high| ==> s[i] == high[i];
      s
  }

  /** Euclidean division by the base splits off the last digit. */
  lemma DivMod(n: nat, base: nat)
    requires 2 <= base <= n
    ensures n % base < base && 0 < n / base < n && n == (n / base) * base + n % base
  {
  }

  /** The number a digit string denotes in `base`. */
  function ValueOf(s: string, base: nat): nat
    requires 2 <= base <= 16 && IsDigitString(s, base)
  {
    if s == [] then 0 else ValueOf(s[..|s| - 1], base) * base + DigitValue(s[|s| - 1])
  }

  /** Printing a number and reading it back gives the number. */
  lemma {:induction false} DigitsRoundTrip(n: nat, base: nat)
    requires 2 <= base <= 16
    ensures ValueOf(Digits(n, base), base) == n
    decreases n
  {
    var s := Digits(n, base);
    if n >= base {
      DivMod(n, base);
      var q, r := n / base, n % base;
      DigitsRoundTrip(q, base);
      assert s == Digits(q, base) + [DigitChar(r)];
      assert s[..|s| - 1] == Digits(q, base);
      assert ValueOf(s, base) == ValueOf(Digits(q, base), base) * base + r;
    }
  }

  /** Printing is injective: two numbers with the same text are equal. */
  lemma DigitsInjective(m: nat, n: nat, base: nat)
    requires 2 <= base <= 16
    requires Digits(m, base) == Digits(n, base)
    ensures m == n
  {
    DigitsRoundTrip(m, base);
    DigitsRoundTrip(n, base);
  }

  /** `'%x' % n` for a non-negative integer. */
  function Hex(n: nat): string {
    Digits(n, 16)
  }

  /** `'%d' % n` and `str(n)` for a non-negative integer. */
  function Decimal(n: nat): string {
    Digits(n, 10)
  }

  /** `str(i)` for any integer. */
  function IntText(i: int): string {
    if i < 0 then "-" + Decimal(-i) else Decimal(i)
  }

  // ---------------------------------------------------------------------
  // strip() and split()
  // ---------------------------------------------------------------------

  /** `s.lstrip()`. */
  function TrimLeft(s: string): (r: string)
    ensures |r| <= |s| && r == s[|s| - |r|..]
    ensures forall i :: 0 <= i < |s| - |r| ==> IsWhitespace(s[i])
    ensures r == [] || !IsWhitespace(r[0])
  {
    if s != [] && IsWhitespace(s[0]) then TrimLeft(s[1..]) else s
  }

  /** `s.rstrip()`. */
  function TrimRight(s: string): (r: string)
    ensures |r| <= |s| && r == s[..|r|]
    ensures forall i :: |r| <= i < |s| ==> IsWhitespace(s[i])
    ensures r == [] || !IsWhitespace(r[|r| - 1])
  {
    if s != [] && IsWhitespace(s[|s| - 1]) then TrimRight(s[..|s| - 1]) else s
  }

  /** The number of leading whitespace characters of `s`. */
  function LeadingWhitespace(s: string): (n: nat)
    ensures n <= |s|
  {
    |s| - |TrimLeft(s)|
  }

  /** `s.strip()`: `s` without its leading and trailing whitespace. */
  function Strip(s: string): string {
    TrimRight(TrimLeft(s))
  }

  /** What `strip()` removes is whitespace, and what it keeps is a slice of `s` with no whitespace at either end. */
  lemma StripShape(s: string)
    ensures var r := Strip(s);
      LeadingWhitespace(s) + |r| <= |s| &&
      r == s[LeadingWhitespace(s)..LeadingWhitespace(s) + |r|] &&
      (forall i :: 0 <= i < LeadingWhitespace(s) ==> IsWhitespace(s[i])) &&
      (forall i :: LeadingWhitespace(s) + |r| <= i < |s| ==> IsWhitespace(s[i])) &&
      (r == [] || (!IsWhitespace(r[0]) && !IsWhitespace(r[|r| - 1])))
  {
    var t := TrimLeft(s);
    assert t == s[LeadingWhitespace(s)..];
  }

  /** The longest prefix of `s` without whitespace. */
  function Word(s: string): (w: string)
    ensures |w| <= |s| && w == s[..|w|]
    ensures forall i :: 0 <= i < |w| ==> !IsWhitespace(w[i])
    ensures |w| < |s| ==> IsWhitespace(s[|w|])
  {
    if s != [] && !IsWhitespace(s[0]) then [s[0]] + Word(s[1..]) else []
  }

  /** `s.split()`: the maximal runs of non-whitespace characters, in order. */
  function Tokens(s: string): seq<string>
    decreases |s|
  {
    var t := TrimLeft(s);
    if t == [] then []
    else
      var w := Word(t);
      [w] + Tokens(t[|w|..])
  }

  /** A token of `split()` is a non-empty run without whitespace. */
  predicate IsToken(w: string) {
    |w| > 0 && forall i :: 0 <= i < |w| ==> !IsWhitespace(w[i])
  }

  /** Every token `split()` yields is non-empty and holds no whitespace. */
  lemma {:induction false} TokensShape(s: string)
    ensures forall k :: 0 <= k < |Tokens(s)| ==> IsToken(Tokens(s)[k])
    decreases |s|
  {
    var t := TrimLeft(s);
    if t != [] {
      var w := Word(t);
      var rest := t[|w|..];
      TokensShape(rest);
      assert Tokens(s) == [w] + Tokens(rest);
      forall k | 0 <= k < |Tokens(s)|
        ensures IsToken(Tokens(s)[k])
      {
        if k > 0 {
          assert Tokens(s)[k] == Tokens(rest)[k - 1];
        }
      }
    }
  }

  /** The index of the first `c` in `s`, or `|s|` when there is none. */
  function IndexOf(s: string, c: char): (i: nat)
    ensures i <= |s|
    ensures i < |s| ==> s[i] == c
    ensures forall j :: 0 <= j < i ==> s[j] != c
  {
    if s == [] then 0 else if s[0] == c then 0 else 1 + IndexOf(s[1..], c)
  }

  /** `s.split(c)` for a one-character separator. */
  function Fields(s: string, c: char): (fs: seq<string>)
    ensures |fs| > 0
    ensures forall k :: 0 <= k < |fs| ==> c !in fs[k]
    decreases |s|
  {
    var i := IndexOf(s, c);
    if i == |s| then [s] else [s[..i]] + Fields(s[i + 1..], c)
  }

  /** `s.split(c)` has a field after the first one exactly when `s` contains `c`. */
  lemma {:induction false} FieldsHasSecond(s: string, c: char)
    ensures |Fields(s, c)| > 1 <==> c in s
    ensures c in s ==> Fields(s, c)[0] == s[..IndexOf(s, c)]
  {
  }
}
