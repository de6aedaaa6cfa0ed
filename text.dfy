/** Character and string operations of the three runtimes involved (PHP,
    JavaScript, Python), restricted to ASCII: decimal rendering of integers,
    Python's `int()` on strings, `str.strip()`, digit filtering, ASCII case
    mapping, substring search and joining. */
module Text {
  import opened Wrappers
  import Seqs

  predicate IsDigit(c: char) { '0' <= c <= '9' }

  predicate AllDigits(s: string) { forall i :: 0 <= i < |s| ==> IsDigit(s[i]) }

  /** The digits of `s`, in order (Python `filter(str.isdigit, s)`, JavaScript `replace(/\D/g, '')`). */
  function DigitsOnly(s: string): (r: string)
    ensures AllDigits(r)
  {
    Seqs.Filter(s, IsDigit)
  }

  /** The ASCII characters Python's `str.strip()` and `int()` treat as white
      space: space, tab, LF, VT, FF, CR and the separators U+001C to U+001F. */
  predicate IsSpace(c: char) {
    c == ' ' || c == '\t' || c == '\n' || c == '\r' || 11 <= c as int <= 12 || 28 <= c as int <= 31
  }

  /** The characters PHP's `trim()` removes by default. */
  predicate PhpTrimChar(c: char) {
    c == ' ' || c == '\t' || c == '\n' || c == '\r' || c == '\0' || c as int == 11
  }

  /** The characters `FILTER_VALIDATE_INT` skips around the number. */
  predicate PhpFilterSpace(c: char) {
    c == ' ' || c == '\t' || c == '\n' || c == '\r' || c as int == 11
  }

  /** The white space and line terminators that JavaScript's `Number()` skips. */
  predicate JsSpace(c: char) {
    || c == ' ' || c == '\t' || c == '\n' || c == '\r' || 11 <= c as int <= 12
    || c as int == 0xA0 || c as int == 0x1680 || 0x2000 <= c as int <= 0x200A
    || c as int == 0x2028 || c as int == 0x2029 || c as int == 0x202F || c as int == 0x205F
    || c as int == 0x3000 || c as int == 0xFEFF
  }

  /** `s` without its leading characters in `sp`. */
  function TrimLeft(s: string, sp: char -> bool): (r: string)
    ensures |r| <= |s| && r == s[|s| - |r|..]
    ensures r == [] || !sp(r[0])
    ensures forall i :: 0 <= i < |s| - |r| ==> sp(s[i])
  {
    if s != [] && sp(s[0]) then
      var r := TrimLeft(s[1..], sp);
      assert s[|s| - |r|..] == s[1..][|s| - 1 - |r|..];
      r
    else s
  }

  /** `s` without its trailing characters in `sp`. */
  function TrimRight(s: string, sp: char -> bool): (r: string)
    ensures |r| <= |s| && r == s[..|r|]
    ensures r == [] || !sp(r[|r| - 1])
    ensures forall i :: |r| <= i < |s| ==> sp(s[i])
  {
    if s != [] && sp(s[|s| - 1]) then TrimRight(s[..|s| - 1], sp) else s
  }

  /** `s` with the characters in `sp` removed from both ends. */
  function StripBy(s: string, sp: char -> bool): (r: string)
    ensures r == [] || (!sp(r[0]) && !sp(r[|r| - 1]))
    ensures s == [] || (!sp(s[0]) && !sp(s[|s| - 1])) ==> r == s
  {
    TrimRight(TrimLeft(s, sp), sp)
  }

  /** Stripping leaves nothing exactly when every character is one that is stripped. */
  lemma StripByEmpty(s: string, sp: char -> bool)
    ensures StripBy(s, sp) == [] <==> forall i :: 0 <= i < |s| ==> sp(s[i])
  {
    var l := TrimLeft(s, sp);
    if l != [] {
      assert TrimRight(l, sp) != [];
      assert !sp(s[|s| - |l|]);
    }
  }

  lemma {:induction false} TrimLeftSkips(w: string, s: string, sp: char -> bool)
    requires forall i :: 0 <= i < |w| ==> sp(w[i])
    ensures TrimLeft(w + s, sp) == TrimLeft(s, sp)
    decreases |w|
  {
    if w == [] {
      assert w + s == s;
    } else {
      assert (w + s)[0] == w[0];
      assert (w + s)[1..] == w[1..] + s;
      TrimLeftSkips(w[1..], s, sp);
    }
  }

  lemma {:induction false} TrimRightSkips(s: string, w: string, sp: char -> bool)
    requires forall i :: 0 <= i < |w| ==> sp(w[i])
    ensures TrimRight(s + w, sp) == TrimRight(s, sp)
    decreases |w|
  {
    if w == [] {
      assert s + w == s;
    } else {
      assert (s + w)[|s + w| - 1] == w[|w| - 1];
      assert (s + w)[..|s + w| - 1] == s + w[..|w| - 1];
      TrimRightSkips(s, w[..|w| - 1], sp);
    }
  }

  /** Padding on either side of a string that is not padded itself is stripped exactly. */
  lemma StripByPadded(w1: string, s: string, w2: string, sp: char -> bool)
    requires forall i :: 0 <= i < |w1| ==> sp(w1[i])
    requires forall i :: 0 <= i < |w2| ==> sp(w2[i])
    requires s != [] && !sp(s[0]) && !sp(s[|s| - 1])
    ensures StripBy(w1 + s + w2, sp) == s
  {
    assert w1 + s + w2 == w1 + (s + w2);
    TrimLeftSkips(w1, s + w2, sp);
    assert (s + w2)[0] == s[0];
    TrimRightSkips(s, w2, sp);
  }

  /** Python `str.strip()`: leading and trailing whitespace removed. */
  function Strip(s: string): (r: string)
    ensures r == [] || (!IsSpace(r[0]) && !IsSpace(r[|r| - 1]))
    ensures s == [] || (!IsSpace(s[0]) && !IsSpace(s[|s| - 1])) ==> r == s
  {
    StripBy(s, IsSpace)
  }

  function DigitValue(c: char): (d: nat)
    requires IsDigit(c)
    ensures d < 10
  {
    (c as int) - ('0' as int)
  }

  function DigitChar(d: nat): (c: char)
    requires d < 10
    ensures IsDigit(c) && DigitValue(c) == d
  {
    (('0' as int) + d) as char
  }

  /** Decimal rendering of a natural number, without leading zeros. */
  function NatToString(n: nat): (r: string)
    ensures |r| >= 1 && AllDigits(r)
    ensures r[0] != '0' || n == 0
    decreases n
  {
    if n < 10 then [DigitChar(n)] else NatToString(n / 10) + [DigitChar(n % 10)]
  }

  /** Decimal rendering of an integer: PHP `(string)`, a JavaScript template
      literal and a Python f-string all render an int this way. */
  function IntToString(i: int): (r: string)
    ensures |r| >= 1 && (r[0] == '-' || IsDigit(r[0])) && IsDigit(r[|r| - 1])
    ensures (r[0] == '-') == (i < 0)
  {
    if i < 0 then "-" + NatToString(-i) else NatToString(i)
  }

  /** The value of a string of decimal digits (the empty string counts as 0). */
  function ParseDigits(s: string): nat
    requires AllDigits(s)
  {
    if s == [] then 0 else ParseDigits(s[..|s| - 1]) * 10 + DigitValue(s[|s| - 1])
  }

  /** Python `int(s)` on a string: surrounding whitespace is ignored, one
      optional sign, then one or more decimal digits; anything else raises
      `ValueError`, modelled as None. */
  function PythonInt(s: string): Option<int> {
    ParseSigned(Strip(s))
  }

  /** What `int()` accepts once the whitespace is gone: one optional sign,
      then one or more decimal digits. */
  function ParseSigned(t: string): Option<int> {
    if t != [] && (t[0] == '-' || t[0] == '+') then
      if |t| > 1 && AllDigits(t[1..]) then
        var v: int := ParseDigits(t[1..]);
        Some(if t[0] == '-' then -v else v)
      else None
    else if t != [] && AllDigits(t) then Some(ParseDigits(t))
    else None
  }

  const PHP_INT_MIN: int := -0x8000_0000_0000_0000
  const PHP_INT_MAX: int := 0x7FFF_FFFF_FFFF_FFFF

  /** PHP `filter_var($s, FILTER_VALIDATE_INT)` on a string, None for `false`:
      spaces, tabs, CR, LF and VT around the number are ignored, then a lone
      `0`, or an optional sign followed by `0` alone or by decimal digits
      without a leading zero, whose value fits in a 64-bit integer. */
  function PhpFilterInt(s: string): (r: Option<int>)
    ensures r.Some? ==> PHP_INT_MIN <= r.value <= PHP_INT_MAX
  {
    PhpIntLiteral(StripBy(s, PhpFilterSpace))
  }

  /** What `FILTER_VALIDATE_INT` accepts once the padding is gone. */
  function PhpIntLiteral(t: string): (r: Option<int>)
    ensures r.Some? ==> PHP_INT_MIN <= r.value <= PHP_INT_MAX
  {
    var signed := t != [] && (t[0] == '-' || t[0] == '+');
    var digits := if signed then t[1..] else t;
    if digits == "0" then Some(0)
    else if digits != [] && digits[0] != '0' && AllDigits(digits) then
      var n: int := ParseDigits(digits);
      var v := if t[0] == '-' then -n else n;
      if PHP_INT_MIN <= v <= PHP_INT_MAX then Some(v) else None
    else None
  }

  /** PHP's rendering of an integer passes `FILTER_VALIDATE_INT` with its own value. */
  lemma PhpFilterIntOfIntToString(i: int)
    requires PHP_INT_MIN <= i <= PHP_INT_MAX
    ensures PhpFilterInt(IntToString(i)) == Some(i)
  {
    if i < 0 {
      ParseNatToString(-i);
      PhpFilterIntMinus(NatToString(-i), -i);
    } else {
      ParseNatToString(i);
      PhpFilterIntDigits(NatToString(i), i);
    }
  }

  /** `FILTER_VALIDATE_INT` ignores the spaces, tabs and line breaks around a value. */
  lemma PhpFilterIntIgnoresPadding(w1: string, s: string, w2: string)
    requires forall i :: 0 <= i < |w1| ==> PhpFilterSpace(w1[i])
    requires forall i :: 0 <= i < |w2| ==> PhpFilterSpace(w2[i])
    requires s != [] && !PhpFilterSpace(s[0]) && !PhpFilterSpace(s[|s| - 1])
    ensures PhpFilterInt(w1 + s + w2) == PhpFilterInt(s)
  {
    StripByPadded(w1, s, w2, PhpFilterSpace);
    assert StripBy(s, PhpFilterSpace) == s;
  }

  /** Digits without a leading zero pass the filter with their value. */
  lemma PhpFilterIntDigits(digits: string, v: nat)
    requires |digits| >= 1 && AllDigits(digits) && ParseDigits(digits) == v && v <= PHP_INT_MAX
    requires digits[0] != '0' || digits == "0"
    ensures PhpFilterInt(digits) == Some(v as int)
  {
    assert IsDigit(digits[0]) && IsDigit(digits[|digits| - 1]);
    assert StripBy(digits, PhpFilterSpace) == digits;
  }

  /** A minus sign and digits without a leading zero pass the filter with the negated value. */
  lemma PhpFilterIntMinus(digits: string, v: nat)
    requires |digits| >= 1 && AllDigits(digits) && ParseDigits(digits) == v && -(v as int) >= PHP_INT_MIN
    requires digits[0] != '0'
    ensures PhpFilterInt("-" + digits) == Some(-(v as int))
  {
    var s := "-" + digits;
    assert s[|s| - 1] == digits[|digits| - 1];
    assert !PhpFilterSpace(s[0]) && !PhpFilterSpace(s[|s| - 1]);
    assert StripBy(s, PhpFilterSpace) == s;
    PhpIntLiteralMinus(digits, v);
  }

  lemma PhpIntLiteralMinus(digits: string, v: nat)
    requires |digits| >= 1 && AllDigits(digits) && ParseDigits(digits) == v && -(v as int) >= PHP_INT_MIN
    requires digits[0] != '0'
    ensures PhpIntLiteral("-" + digits) == Some(-(v as int))
  {
    var s := "-" + digits;
    assert s[0] == '-' && s[1..] == digits;
  }

  /** A plus sign and digits without a leading zero pass the filter with their value. */
  lemma PhpFilterIntPlus(digits: string, v: nat)
    requires |digits| >= 1 && AllDigits(digits) && ParseDigits(digits) == v && v <= PHP_INT_MAX
    requires digits[0] != '0'
    ensures PhpFilterInt("+" + digits) == Some(v as int)
  {
    var s := "+" + digits;
    assert s[|s| - 1] == digits[|digits| - 1];
    assert !PhpFilterSpace(s[0]) && !PhpFilterSpace(s[|s| - 1]);
    assert StripBy(s, PhpFilterSpace) == s;
    PhpIntLiteralPlus(digits, v);
  }

  lemma PhpIntLiteralPlus(digits: string, v: nat)
    requires |digits| >= 1 && AllDigits(digits) && ParseDigits(digits) == v && v <= PHP_INT_MAX
    requires digits[0] != '0'
    ensures PhpIntLiteral("+" + digits) == Some(v as int)
  {
    var s := "+" + digits;
    assert s[0] == '+' && s[1..] == digits;
  }

  lemma {:induction false} ParseNatToString(n: nat)
    ensures ParseDigits(NatToString(n)) == n
    decreases n
  {
    if n >= 10 {
      var s := NatToString(n);
      assert s[..|s| - 1] == NatToString(n / 10);
      ParseNatToString(n / 10);
    }
  }

  /** Rendering an integer and reading it back with Python's `int()` gives it back. */
  lemma PythonIntOfIntToString(i: int)
    ensures PythonInt(IntToString(i)) == Some(i)
  {
    var s := IntToString(i);
    assert !IsSpace(s[0]) && !IsSpace(s[|s| - 1]);
    StripUnchanged(s);
    ParseSignedOfIntToString(i);
  }

  lemma ParseSignedOfIntToString(i: int)
    ensures ParseSigned(IntToString(i)) == Some(i)
  {
    if i < 0 {
      ParseNatToString(-i);
      ParseSignedMinus(NatToString(-i), -i);
    } else {
      ParseNatToString(i);
      ParseSignedDigits(NatToString(i), i);
    }
  }

  /** Digits alone read back as their value. */
  lemma ParseSignedDigits(digits: string, v: nat)
    requires |digits| >= 1 && AllDigits(digits) && ParseDigits(digits) == v
    ensures ParseSigned(digits) == Some(v as int)
  {
    assert IsDigit(digits[0]);
  }

  /** A minus sign followed by digits reads back as the negated value. */
  lemma ParseSignedMinus(digits: string, v: nat)
    requires |digits| >= 1 && AllDigits(digits) && ParseDigits(digits) == v
    ensures ParseSigned("-" + digits) == Some(-(v as int))
  {
    assert ("-" + digits)[1..] == digits;
  }

  /** A string that neither starts nor ends with whitespace is its own strip. */
  lemma StripUnchanged(s: string)
    requires s != [] && !IsSpace(s[0]) && !IsSpace(s[|s| - 1])
    ensures Strip(s) == s
  {
  }

  function UpperChar(c: char): char {
    if 'a' <= c <= 'z' then ((c as int) - 32) as char else c
  }

  /** ASCII upper-casing (PHP 8 `strtoupper` is locale-independent and ASCII-only). */
  function UpperAscii(s: string): (r: string)
    ensures |r| == |s|
    ensures forall i :: 0 <= i < |s| ==> r[i] == UpperChar(s[i])
  {
    seq(|s|, i requires 0 <= i < |s| => UpperChar(s[i]))
  }

  lemma UpperAsciiIdempotent(s: string)
    ensures UpperAscii(UpperAscii(s)) == UpperAscii(s)
  {
  }

  /** `sub` occurs in `s` at some position (JavaScript `String.prototype.includes`). */
  predicate Contains(s: string, sub: string)
    decreases |s|
  {
    sub <= s || (s != [] && Contains(s[1..], sub))
  }

  lemma {:induction false} ContainsEmpty(s: string)
    ensures Contains(s, "")
  {
  }

  /** `parts` joined with `sep` in between (`Array.prototype.join`, PHP `implode`, Python `str.join`). */
  function Join(parts: seq<string>, sep: string): string {
    if |parts| == 0 then ""
    else if |parts| == 1 then parts[0]
    else parts[0] + sep + Join(parts[1..], sep)
  }

  /** The groupings of a CPF written `d1.d2.d3-d4` that the proofs about
      its normalisation walk through. */
  lemma FormattedCpfShape(d1: string, d2: string, d3: string, d4: string)
    ensures d1 + "." + d2 + "." + d3 + "-" + d4 == d1 + ['.'] + (d2 + ['.'] + (d3 + ['-'] + d4))
    ensures d1 + (d2 + (d3 + ['-'] + d4)) == (d1 + d2 + d3) + ['-'] + d4
    ensures d1 + (d2 + (d3 + d4)) == d1 + d2 + d3 + d4
  {
  }

  /** Every occurrence of `c` removed (Python `s.replace(c, '')`). */
  function RemoveChar(s: string, c: char): (r: string)
    ensures forall x :: x in r <==> x in s && x != c
  {
    if s == [] then [] else (if s[0] == c then [] else [s[0]]) + RemoveChar(s[1..], c)
  }
}
