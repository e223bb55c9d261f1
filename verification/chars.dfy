/** Character classes and decimal/hexadecimal digit arithmetic shared by the
    JSON scanner, the extraction regexes and the number renderer. */
module Chars {

  /** The four whitespace characters of the JSON grammar (RFC 8259, section 2),
      which is also the set CPython's scanner skips. */
  predicate IsJsonSpace(c: char) {
    c == ' ' || c == '\t' || c == '\n' || c == '\r'
  }

  /** CPython's `str.isspace`, which is also what `\s` and `str.strip()`
      match in a `str` pattern: the Unicode whitespace characters plus the
      four ASCII information separators U+001C..U+001F. */
  predicate IsPySpace(c: char) {
    || ('\t' <= c <= '\r')
    || ('\U{1c}' <= c <= ' ')
    || c == '\U{85}' || c == '\U{a0}' || c == '\U{1680}'
    || ('\U{2000}' <= c <= '\U{200a}')
    || c == '\U{2028}' || c == '\U{2029}' || c == '\U{202f}'
    || c == '\U{205f}' || c == '\U{3000}'
  }

  predicate IsDigit(c: char) {
    '0' <= c <= '9'
  }

  predicate IsHexDigit(c: char) {
    IsDigit(c) || ('a' <= c <= 'f') || ('A' <= c <= 'F')
  }

  function DigitValue(c: char): (d: nat)
    requires IsDigit(c)
    ensures d < 10
  {
    (c as int) - ('0' as int)
  }

  function HexDigitValue(c: char): (d: nat)
    requires IsHexDigit(c)
    ensures d < 16
  {
    if IsDigit(c) then DigitValue(c)
    else if 'a' <= c <= 'f' then (c as int) - ('a' as int) + 10
    else (c as int) - ('A' as int) + 10
  }

  function DigitChar(d: nat): (c: char)
    requires d < 10
    ensures IsDigit(c) && DigitValue(c) == d
  {
    ('0' as int + d) as char
  }

  predicate AllDigits(ds: string) {
    forall k :: 0 <= k < |ds| ==> IsDigit(ds[k])
  }

  /** The value of a string of decimal digits, most significant first. */
  function DigitsValue(ds: string): nat
    requires AllDigits(ds)
  {
    if |ds| == 0 then 0
    else DigitsValue(ds[..|ds| - 1]) * 10 + DigitValue(ds[|ds| - 1])
  }

  /** Python's `str(n)` for a natural number. */
  function NatToString(n: nat): (r: string)
    ensures |r| > 0 && AllDigits(r)
    ensures n == 0 <==> r == "0"
    ensures r[0] != '0' || r == "0"
    ensures DigitsValue(r) == n
  {
    if n < 10 then [DigitChar(n)]
    else
      var front := NatToString(n / 10);
      var r := front + [DigitChar(n % 10)];
      assert r[..|r| - 1] == front;
      r
  }

  /** `w` occurs in `s` starting at index `i`. */
  predicate HasAt(s: string, i: nat, w: string)
    decreases |w|
  {
    i + |w| <= |s| && (|w| == 0 || (s[i] == w[0] && HasAt(s, i + 1, w[1..])))
  }

  /** The index of the first character at or after `i` that is not Python
      whitespace: how far `\s*` reaches, and where `str.strip()` cuts. */
  function SkipPySpace(s: string, i: nat): (r: nat)
    requires i <= |s|
    ensures i <= r <= |s|
    ensures r == |s| || !IsPySpace(s[r])
    decreases |s| - i
  {
    if i < |s| && IsPySpace(s[i]) then SkipPySpace(s, i + 1) else i
  }

  /** Everything `SkipPySpace` skips is Python whitespace. */
  lemma {:induction false} SkipPySpaceSpaces(s: string, i: nat)
    requires i <= |s|
    ensures forall k :: i <= k < SkipPySpace(s, i) ==> IsPySpace(s[k])
    decreases |s| - i
  {
    if i < |s| && IsPySpace(s[i]) {
      SkipPySpaceSpaces(s, i + 1);
    }
  }
}
