/** Character classes and string operations of JavaScript that the app relies on:
    `includes`, `trim`, the `\s` class, ASCII lower-casing and decimal digits. */
module Strings {

  datatype Option<+T> = None | Some(value: T)

  /** JavaScript's WhiteSpace and LineTerminator characters: the `\s` regex class,
      what `trim` removes and what `parseInt` skips. */
  predicate IsJsSpace(c: char) {
    c == '\t' || c == '\n' || c == '\U{000B}' || c == '\U{000C}' || c == '\r' || c == ' '
    || c == '\U{00A0}' || c == '\U{1680}' || ('\U{2000}' <= c <= '\U{200A}')
    || c == '\U{2028}' || c == '\U{2029}' || c == '\U{202F}' || c == '\U{205F}'
    || c == '\U{3000}' || c == '\U{FEFF}'
  }

  predicate IsDigit(c: char) { '0' <= c <= '9' }
  predicate IsAsciiUpper(c: char) { 'A' <= c <= 'Z' }
  predicate IsAsciiLower(c: char) { 'a' <= c <= 'z' }
  predicate IsAsciiAlnum(c: char) { IsAsciiUpper(c) || IsAsciiLower(c) || IsDigit(c) }

  /** `toLowerCase` restricted to the ASCII letters; every other character is kept. */
  function ToLowerAscii(c: char): (d: char)
    ensures IsAsciiUpper(c) ==> IsAsciiLower(d) && d as int - 'a' as int == c as int - 'A' as int
    ensures !IsAsciiUpper(c) ==> d == c
  {
    if IsAsciiUpper(c) then (c as int - 'A' as int + 'a' as int) as char else c
  }

  function LowerAscii(s: string): (r: string)
    ensures |r| == |s|
    ensures forall i :: 0 <= i < |s| ==> r[i] == ToLowerAscii(s[i])
  {
    if s == [] then [] else [ToLowerAscii(s[0])] + LowerAscii(s[1..])
  }

  /** `t` occurs in `s` starting at index `i` */
  predicate OccursAt(s: string, t: string, i: int) {
    0 <= i && i + |t| <= |s| && s[i..i + |t|] == t
  }

  /** `s.includes(t)`, as a left-to-right scan from index `k` */
  function IncludesFrom(s: string, t: string, k: nat): (b: bool)
    ensures b <==> exists i :: k <= i && OccursAt(s, t, i)
    decreases |s| - k
  {
    if k + |t| > |s| then false
    else if s[k..k + |t|] == t then assert OccursAt(s, t, k); true
    else IncludesFrom(s, t, k + 1)
  }

  function Includes(s: string, t: string): (b: bool)
    ensures b <==> exists i :: OccursAt(s, t, i)
  {
    IncludesFrom(s, t, 0)
  }

  /** `trimStart`: drops the leading run of JavaScript whitespace */
  function TrimStart(s: string): (r: string)
    ensures |r| <= |s| && r == s[|s| - |r|..]
    ensures forall i :: 0 <= i < |s| - |r| ==> IsJsSpace(s[i])
    ensures r == [] || !IsJsSpace(r[0])
  {
    if s != [] && IsJsSpace(s[0]) then TrimStart(s[1..]) else s
  }

  lemma TrimStartNoSpace(s: string)
    requires s != [] && !IsJsSpace(s[0])
    ensures TrimStart(s) == s
  {
  }

  /** A string without upper-case ASCII letters is its own lower case. */
  lemma LowerAsciiNoUpper(s: string)
    requires forall i :: 0 <= i < |s| ==> !IsAsciiUpper(s[i])
    ensures LowerAscii(s) == s
  {
  }

  /** One whitespace character in front is dropped. */
  lemma TrimStartSkips(c: char, s: string)
    requires IsJsSpace(c)
    ensures TrimStart([c] + s) == TrimStart(s)
  {
    assert ([c] + s)[0] == c && ([c] + s)[1..] == s;
  }

  /** Whitespace in front of a string that does not start with whitespace is all dropped. */
  lemma {:induction false} TrimStartSpaces(w: string, t: string)
    requires forall i :: 0 <= i < |w| ==> IsJsSpace(w[i])
    requires t == [] || !IsJsSpace(t[0])
    ensures TrimStart(w + t) == t
  {
    if w == [] {
      assert w + t == t;
    } else {
      assert (w + t)[1..] == w[1..] + t;
      TrimStartSpaces(w[1..], t);
    }
  }

  /** Dropping leading whitespace stops inside a string that ends in a non-space, so
      whatever follows that string is kept whole. */
  lemma {:induction false} TrimStartAppend(a: string, b: string)
    requires a != [] && !IsJsSpace(a[|a| - 1])
    ensures TrimStart(a + b) == TrimStart(a) + b
  {
    if IsJsSpace(a[0]) {
      assert (a + b)[0] == a[0] && (a + b)[1..] == a[1..] + b;
      TrimStartAppend(a[1..], b);
    } else {
      assert (a + b)[0] == a[0];
    }
  }

  /** `trimEnd`: drops the trailing run of JavaScript whitespace */
  function TrimEnd(s: string): (r: string)
    ensures |r| <= |s| && r == s[..|r|]
    ensures forall i :: |r| <= i < |s| ==> IsJsSpace(s[i])
    ensures r == [] || !IsJsSpace(r[|r| - 1])
  {
    if s != [] && IsJsSpace(s[|s| - 1]) then TrimEnd(s[..|s| - 1]) else s
  }

  /** The value of a digit character in radices up to 36; 36 for a non-digit. */
  function RadixDigit(c: char): (d: nat)
    ensures d <= 36
    ensures d < 10 <==> IsDigit(c)
  {
    if IsDigit(c) then c as int - '0' as int
    else if IsAsciiLower(c) then c as int - 'a' as int + 10
    else if IsAsciiUpper(c) then c as int - 'A' as int + 10
    else 36
  }

  predicate AllRadixDigits(s: string, radix: nat) {
    forall i :: 0 <= i < |s| ==> RadixDigit(s[i]) < radix
  }

  /** The number a string of digits denotes in the given radix, most significant first. */
  function ValueIn(s: string, radix: nat): nat
    requires AllRadixDigits(s, radix)
  {
    if s == [] then 0 else ValueIn(s[..|s| - 1], radix) * radix + RadixDigit(s[|s| - 1])
  }

  /** Appending a digit multiplies the value by the radix and adds the digit. */
  lemma ValueInAppend(s: string, c: char, radix: nat)
    requires AllRadixDigits(s, radix) && RadixDigit(c) < radix
    ensures AllRadixDigits(s + [c], radix) && ValueIn(s + [c], radix) == ValueIn(s, radix) * radix + RadixDigit(c)
  {
    assert (s + [c])[..|s|] == s;
  }

  function DigitChar(d: nat): (c: char)
    requires d < 10
    ensures IsDigit(c) && RadixDigit(c) == d
  {
    ('0' as int + d) as char
  }

  /** `n.toString()` for a natural number: its decimal digits, without leading zeros. */
  function DecimalString(n: nat): (r: string)
    ensures |r| > 0 && AllRadixDigits(r, 10)
    ensures ValueIn(r, 10) == n
    ensures r[0] == '0' ==> n == 0
    ensures |r| == 1 <==> n < 10
    ensures n < 100 ==> |r| <= 2
  {
    if n < 10 then [DigitChar(n)]
    else
      var front := DecimalString(n / 10);
      var r := front + [DigitChar(n % 10)];
      assert r[..|r| - 1] == front;
      r
  }

  /** A leading '0' does not change the value of a decimal digit string. */
  lemma {:induction false} LeadingZero(s: string)
    requires AllRadixDigits(s, 10)
    ensures AllRadixDigits("0" + s, 10) && ValueIn("0" + s, 10) == ValueIn(s, 10)
  {
    if s != [] {
      var t := "0" + s;
      assert t[..|t| - 1] == "0" + s[..|s| - 1];
      LeadingZero(s[..|s| - 1]);
    }
  }
}
