/**
 * The parts of Python's `str` behaviour the handlers rely on: `int(s)` for
 * a query parameter, and `s.lower()` for the `only_timeseries` flag.
 */
module PyText {
  import opened Options

  /**
   * The characters `int()` ignores around a number: the ASCII space and
   * `\t` to `\r`, and the non-ASCII characters for which `str.isspace()`
   * holds. The ASCII separators U+001C to U+001F pass `str.isspace()` but
   * are not skipped, so `int()` refuses them.
   */
  predicate IntSpace(c: char) {
    || c == ' '
    || ('\U{9}' <= c <= '\U{D}')
    || c == '\U{85}' || c == '\U{A0}' || c == '\U{1680}'
    || ('\U{2000}' <= c <= '\U{200A}')
    || c == '\U{2028}' || c == '\U{2029}' || c == '\U{202F}' || c == '\U{205F}' || c == '\U{3000}'
  }

  predicate IsDigit(c: char) { '0' <= c <= '9' }

  predicate AllDigits(s: string) { forall k :: 0 <= k < |s| ==> IsDigit(s[k]) }

  /** Where the text of `s` starts: the number of its leading whitespace characters. */
  function StripStart(s: string): (lo: nat)
    ensures lo <= |s|
    ensures forall k :: 0 <= k < lo ==> IntSpace(s[k])
    ensures lo == |s| || !IntSpace(s[lo])
  {
    if s != [] && IntSpace(s[0]) then 1 + StripStart(s[1..]) else 0
  }

  /** Where the text of `s[lo..]` ends: the position before its trailing whitespace. */
  function StripEnd(s: string, lo: nat): (hi: nat)
    requires lo <= |s|
    ensures lo <= hi <= |s|
    ensures forall k :: hi <= k < |s| ==> IntSpace(s[k])
    ensures hi == lo || !IntSpace(s[hi - 1])
  {
    if |s| > lo && IntSpace(s[|s| - 1]) then StripEnd(s[..|s| - 1], lo) else |s|
  }

  /** `s.strip()`: `s` without its leading and trailing whitespace. */
  function Strip(s: string): (t: string)
    ensures |t| <= |s|
  {
    var lo := StripStart(s);
    s[lo..StripEnd(s, lo)]
  }

  /**
   * The digits of a base-10 literal as `int()` accepts them: at least one
   * digit, and an underscore only between two digits.
   */
  predicate WellGrouped(s: string) {
    && |s| > 0
    && IsDigit(s[0])
    && IsDigit(s[|s| - 1])
    && (forall k :: 0 <= k < |s| ==> IsDigit(s[k]) || s[k] == '_')
    && SingleUnderscores(s)
  }

  /** No two underscores in a row. */
  predicate SingleUnderscores(s: string) {
    |s| < 2 || ((s[0] != '_' || s[1] != '_') && SingleUnderscores(s[1..]))
  }

  /** The digits of `s` with the grouping underscores removed. */
  function Ungroup(s: string): (r: string)
    ensures (forall k :: 0 <= k < |s| ==> IsDigit(s[k]) || s[k] == '_') ==> AllDigits(r)
    ensures AllDigits(s) ==> r == s
  {
    if s == [] then []
    else (if s[0] == '_' then [] else [s[0]]) + Ungroup(s[1..])
  }

  function DigitValue(c: char): nat
    requires IsDigit(c)
  {
    c as int - '0' as int
  }

  /** The number a string of decimal digits denotes, most significant digit first. */
  function DigitsValue(s: string): nat
    requires AllDigits(s)
  {
    if s == [] then 0 else DigitsValue(s[..|s| - 1]) * 10 + DigitValue(s[|s| - 1])
  }

  /**
   * `int(s)` with base 10, or `None` where Python raises `ValueError`:
   * surrounding whitespace, an optional sign, then grouped digits.
   */
  function ParseInt(s: string): Option<int> {
    ParseStripped(Strip(s))
  }

  /** `int()` on text whose surrounding whitespace is already gone. */
  function ParseStripped(t: string): Option<int> {
    if |t| > 0 && (t[0] == '+' || t[0] == '-') then
      match ParseDigits(t[1..])
      case Some(n) => Some(Signed(t[0] == '-', n))
      case None => None
    else
      match ParseDigits(t)
      case Some(n) => Some(n)
      case None => None
  }

  /** The unsigned part of a literal: grouped digits, or `None`. */
  function ParseDigits(body: string): Option<nat> {
    if WellGrouped(body) then Some(DigitsValue(Ungroup(body))) else None
  }

  function Signed(negative: bool, n: nat): int {
    if negative then -(n as int) else n
  }

  /** `int()` accepts only whitespace, signs, digits and underscores, and at least one digit. */
  lemma ParseIntAcceptsOnlyNumbers(s: string)
    requires ParseInt(s).Some?
    ensures forall k :: 0 <= k < |s| ==> IntSpace(s[k]) || NumberChar(s[k])
    ensures exists k :: 0 <= k < |s| && IsDigit(s[k])
  {
    var t := Strip(s);
    var signed := |t| > 0 && (t[0] == '+' || t[0] == '-');
    SignedDigitsChars(t, signed, if signed then t[1..] else t);
    StripOnlyRemovesSpace(s);
    var j :| 0 <= j < |t| && IsDigit(t[j]);
    StripKeepsDigit(s, j);
  }

  /** A character that may stand between the surrounding whitespace of an accepted number. */
  predicate NumberChar(c: char) { IsDigit(c) || c == '+' || c == '-' || c == '_' }

  /** A string whose stripped form is made of number characters is made of those and whitespace. */
  lemma StripOnlyRemovesSpace(s: string)
    requires forall k :: 0 <= k < |Strip(s)| ==> NumberChar(Strip(s)[k])
    ensures forall k :: 0 <= k < |s| ==> IntSpace(s[k]) || NumberChar(s[k])
  {
    var lo := StripStart(s);
    var t := Strip(s);
    forall k | lo <= k < lo + |t| ensures NumberChar(s[k]) {
      assert s[k] == t[k - lo];
    }
  }

  /** The sign and grouped digits that `int()` accepts after stripping. */
  lemma SignedDigitsChars(t: string, signed: bool, body: string)
    requires signed == (|t| > 0 && (t[0] == '+' || t[0] == '-'))
    requires body == if signed then t[1..] else t
    requires WellGrouped(body)
    ensures forall k :: 0 <= k < |t| ==> NumberChar(t[k])
    ensures exists k :: 0 <= k < |t| && IsDigit(t[k])
  {
    assert forall k :: 0 <= k < |body| ==> NumberChar(body[k]);
    if signed {
      assert t == [t[0]] + body;
      assert IsDigit(t[1]);
    } else {
      assert IsDigit(t[0]);
    }
  }

  /** A digit of the stripped text is a digit of the original string. */
  lemma StripKeepsDigit(s: string, j: nat)
    requires j < |Strip(s)| && IsDigit(Strip(s)[j])
    ensures exists k :: 0 <= k < |s| && IsDigit(s[k])
  {
    var lo := StripStart(s);
    assert s[lo + j] == Strip(s)[j];
  }

  function DigitChar(d: nat): (c: char)
    requires d < 10
    ensures IsDigit(c) && DigitValue(c) == d
  {
    ('0' as int + d) as char
  }

  /** `str(n)` for a natural number: its decimal digits without leading zeros. */
  function ShowNat(n: nat): (r: string)
    ensures |r| > 0 && AllDigits(r)
  {
    if n < 10 then [DigitChar(n)] else ShowNat(n / 10) + [DigitChar(n % 10)]
  }

  /** `str(n)`. */
  function Show(n: int): (r: string)
    ensures |r| > 0
  {
    if n < 0 then "-" + ShowNat(-n) else ShowNat(n)
  }

  lemma {:induction false} DigitsValueShowNat(n: nat)
    ensures DigitsValue(ShowNat(n)) == n
  {
    if n >= 10 {
      DigitsValueShowNat(n / 10);
      var s := ShowNat(n);
      assert s[..|s| - 1] == ShowNat(n / 10);
    }
  }

  /** The ASCII separators are not whitespace to `int()`, while tabs and line breaks are. */
  lemma ParseIntRefusesSeparators()
    ensures ParseInt("\U{1C}5") == None
    ensures ParseInt("5\U{1F}") == None
    ensures ParseInt("\t5\n") == Some(5)
  {
    assert Strip("\U{1C}5") == "\U{1C}5";
    assert Strip("5\U{1F}") == "5\U{1F}";
    assert Strip("\t5\n") == "5" by {
      assert StripStart("\t5\n") == 1;
      assert StripEnd("\t5\n", 1) == 2;
    }
    ParseDigitsPlain("5");
  }

  lemma StripUnpadded(s: string)
    requires |s| > 0 && !IntSpace(s[0]) && !IntSpace(s[|s| - 1])
    ensures Strip(s) == s
  {
    assert StripStart(s) == 0;
    assert s[0..|s|] == s;
  }

  lemma {:induction false} DigitsHaveSingleUnderscores(s: string)
    requires AllDigits(s)
    ensures SingleUnderscores(s)
  {
    if |s| >= 2 {
      DigitsHaveSingleUnderscores(s[1..]);
    }
  }

  lemma DigitsAreWellGrouped(s: string)
    requires |s| > 0 && AllDigits(s)
    ensures WellGrouped(s) && Ungroup(s) == s
  {
    DigitsHaveSingleUnderscores(s);
  }

  /** A run of plain digits is read as the number it denotes. */
  lemma ParseDigitsPlain(digits: string)
    requires |digits| > 0 && AllDigits(digits)
    ensures ParseDigits(digits) == Some(DigitsValue(digits))
  {
    DigitsAreWellGrouped(digits);
  }

  /** The value `int()` reads from a string with no surrounding whitespace. */
  lemma ParseIntUnpadded(s: string, negative: bool, digits: string)
    requires |digits| > 0 && AllDigits(digits)
    requires s == if negative then "-" + digits else digits
    ensures ParseInt(s) == Some(Signed(negative, DigitsValue(digits)))
  {
    StripUnpadded(s);
    ParseDigitsPlain(digits);
    if negative {
      assert s[0] == '-' && s[1..] == digits;
    } else {
      assert !(s[0] == '+' || s[0] == '-');
    }
  }

  /** `int(str(n)) == n`: every integer `str` prints is read back unchanged. */
  lemma ParseIntShow(n: int)
    ensures ParseInt(Show(n)) == Some(n)
  {
    var m: nat := if n < 0 then -n else n;
    DigitsValueShowNat(m);
    ParseIntUnpadded(Show(n), n < 0, ShowNat(m));
  }

  /** `c.lower()` for an ASCII letter; every other character is left as it is. */
  function LowerChar(c: char): char {
    if 'A' <= c <= 'Z' then (c as int + 32) as char else c
  }

  /** `s.lower()`, restricted to ASCII letters. */
  function LowerAscii(s: string): (r: string)
    ensures |r| == |s| && forall k :: 0 <= k < |s| ==> r[k] == LowerChar(s[k])
  {
    if s == [] then [] else [LowerChar(s[0])] + LowerAscii(s[1..])
  }
}
