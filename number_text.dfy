/** Digit strings: the decimal rendering of a natural number (the text of an
    array index used as an object key) and JavaScript's `parseInt` as the
    assignment editor calls it, with one argument. */
module NumberText {
  import opened Wrappers

  predicate IsDecimalDigit(c: char) {
    '0' <= c <= '9'
  }

  /** A digit of the given radix; `parseInt` only ever reads radix 10 or 16. */
  predicate IsRadixDigit(c: char, radix: nat) {
    if radix == 16 then IsDecimalDigit(c) || 'a' <= c <= 'f' || 'A' <= c <= 'F'
    else IsDecimalDigit(c)
  }

  predicate AllDigits(s: string, radix: nat) {
    forall i :: 0 <= i < |s| ==> IsRadixDigit(s[i], radix)
  }

  function DigitValue(c: char): (d: nat)
    requires IsRadixDigit(c, 16)
    ensures d < 16
    ensures IsDecimalDigit(c) <==> d < 10
  {
    if IsDecimalDigit(c) then c as int - '0' as int
    else if 'a' <= c <= 'f' then c as int - 'a' as int + 10
    else c as int - 'A' as int + 10
  }

  function DigitChar(d: nat): (c: char)
    requires d < 10
    ensures IsDecimalDigit(c) && DigitValue(c) == d
  {
    ('0' as int + d) as char
  }

  /** The number a digit string denotes, most significant digit first. */
  function DigitsValue(ds: string, radix: nat): nat
    requires radix == 10 || radix == 16
    requires AllDigits(ds, radix)
  {
    if ds == [] then 0
    else
      var high := DigitsValue(ds[..|ds| - 1], radix);
      (if radix == 16 then high * 16 else high * 10) + DigitValue(ds[|ds| - 1])
  }

  /** The shortest decimal text of `n`, as `String(n)` writes it. */
  function DecimalString(n: nat): (s: string)
    ensures 1 <= |s| && AllDigits(s, 10)
    ensures DigitsValue(s, 10) == n
    ensures s[0] == '0' ==> s == "0"
  {
    if n < 10 then [DigitChar(n)]
    else
      var prefix := DecimalString(n / 10);
      var s := prefix + [DigitChar(n % 10)];
      assert s[..|s| - 1] == prefix;
      s
  }

  lemma {:induction false} DecimalStringInjective(m: nat, n: nat)
    requires DecimalString(m) == DecimalString(n)
    ensures m == n
  {
  }

  /** The characters `parseInt` skips before the number: ECMAScript's
      white space and line terminators. */
  predicate IsJsWhitespace(c: char) {
    || c == '\t' || c == '\n' || c == '\U{B}' || c == '\U{C}' || c == '\r' || c == ' '
    || c == '\U{A0}' || c == '\U{1680}' || ('\U{2000}' <= c <= '\U{200A}')
    || c == '\U{2028}' || c == '\U{2029}' || c == '\U{202F}' || c == '\U{205F}'
    || c == '\U{3000}' || c == '\U{FEFF}'
  }

  /** The length of the longest run of radix digits at the start of `s`. */
  function DigitRun(s: string, radix: nat): (k: nat)
    ensures k <= |s| && AllDigits(s[..k], radix)
    ensures k < |s| ==> !IsRadixDigit(s[k], radix)
  {
    if s != [] && IsRadixDigit(s[0], radix) then
      var k := 1 + DigitRun(s[1..], radix);
      assert forall i :: 1 <= i < k ==> s[..k][i] == s[1..][..k - 1][i - 1];
      k
    else 0
  }

  /** `parseInt(text)` without a radix: leading white space is skipped, one sign
      is read, a "0x"/"0X" prefix switches to radix 16, and the longest run of
      digits is converted; no digit at all gives NaN, here `None`. A negative
      zero is the integer 0. */
  function ParseInt(text: string): (r: Option<int>)
    ensures r.Some? && r.value < 0 ==> '-' in text
  {
    if text != [] && IsJsWhitespace(text[0]) then ParseInt(text[1..]) else ParseSigned(text)
  }

  /** `parseInt` after the white space: an optional sign, then the magnitude. */
  function ParseSigned(s: string): (r: Option<int>)
    ensures r.Some? && r.value < 0 ==> |s| > 0 && s[0] == '-'
  {
    var negative := |s| > 0 && s[0] == '-';
    var unsigned := if |s| > 0 && (s[0] == '-' || s[0] == '+') then s[1..] else s;
    match ParseMagnitude(unsigned)
    case None => None
    case Some(m) => Some(if negative then -(m as int) else m as int)
  }

  /** `parseInt` after the sign: a "0x"/"0X" prefix selects radix 16, and the
      longest run of digits of the radix is its magnitude. */
  function ParseMagnitude(u: string): Option<nat> {
    var hex := |u| >= 2 && u[0] == '0' && (u[1] == 'x' || u[1] == 'X');
    var radix := if hex then 16 else 10;
    var digits := if hex then u[2..] else u;
    var k := DigitRun(digits, radix);
    if k == 0 then None else Some(DigitsValue(digits[..k], radix))
  }

  /** `parseInt` reads back the decimal text of a number, with an optional sign
      in front and anything that is not a digit after it ("12abc" gives 12). */
  lemma {:induction false} ParseIntReadsDecimal(sign: string, n: nat, rest: string)
    requires sign == "" || sign == "+" || sign == "-"
    requires rest == [] || !IsDecimalDigit(rest[0])
    requires n == 0 ==> rest == [] || (rest[0] != 'x' && rest[0] != 'X')
    ensures ParseInt(sign + DecimalString(n) + rest) == Some(if sign == "-" then -(n as int) else n as int)
  {
    ParseIntReadsDigits(sign, DecimalString(n), rest);
  }

  /** The same for any digit string without a "0x" reading: its value is read. */
  lemma {:induction false} ParseIntReadsDigits(sign: string, d: string, rest: string)
    requires sign == "" || sign == "+" || sign == "-"
    requires d != [] && AllDigits(d, 10)
    requires rest == [] || !IsDecimalDigit(rest[0])
    requires d[0] == '0' ==> |d| >= 2 || rest == [] || (rest[0] != 'x' && rest[0] != 'X')
    ensures ParseInt(sign + d + rest) == Some(if sign == "-" then -(DigitsValue(d, 10) as int) else DigitsValue(d, 10) as int)
  {
    var u := d + rest;
    assert sign + d + rest == sign + u;
    assert u[0] == d[0];
    MagnitudeOfDigits(d, rest);
    SignedMagnitude(sign, u, DigitsValue(d, 10));
  }

  /** With no white space in front, `parseInt` applies the sign to the magnitude. */
  lemma {:induction false} SignedMagnitude(sign: string, u: string, m: nat)
    requires sign == "" || sign == "+" || sign == "-"
    requires u != [] && IsDecimalDigit(u[0])
    requires ParseMagnitude(u) == Some(m)
    ensures ParseInt(sign + u) == Some(if sign == "-" then -(m as int) else m as int)
  {
    assert (sign + u)[0] == if sign == "" then u[0] else sign[0];
    SignIsRead(sign, u);
  }

  /** The sign character in front of a magnitude decides the sign of the result. */
  lemma {:induction false} SignIsRead(sign: string, u: string)
    requires sign == "" || sign == "+" || sign == "-"
    requires u != [] && IsDecimalDigit(u[0])
    ensures ParseSigned(sign + u) == match ParseMagnitude(u)
      case None => None
      case Some(m) => Some(if sign == "-" then -(m as int) else m as int)
  {
    if sign == "" {
      assert sign + u == u;
    } else {
      assert (sign + u)[0] == sign[0] && (sign + u)[1..] == u;
    }
  }

  lemma {:induction false} MagnitudeOfDigits(d: string, rest: string)
    requires d != [] && AllDigits(d, 10)
    requires rest == [] || !IsDecimalDigit(rest[0])
    requires d[0] == '0' ==> |d| >= 2 || rest == [] || (rest[0] != 'x' && rest[0] != 'X')
    ensures ParseMagnitude(d + rest) == Some(DigitsValue(d, 10))
  {
    var unsigned := d + rest;
    assert forall i :: 0 <= i < |d| ==> unsigned[i] == d[i];
    assert |rest| > 0 ==> unsigned[|d|] == rest[0];
    var k := DigitRun(unsigned, 10);
    assert forall i :: 0 <= i < k ==> unsigned[..k][i] == unsigned[i];
    assert k == |d|;
    assert unsigned[..k] == d;
  }

  /** Leading white space never changes what `parseInt` reads. */
  lemma {:induction false} ParseIntSkipsWhitespace(ws: string, s: string)
    requires forall i :: 0 <= i < |ws| ==> IsJsWhitespace(ws[i])
    ensures ParseInt(ws + s) == ParseInt(s)
  {
    if ws == [] {
      assert ws + s == s;
    } else {
      var t := ws + s;
      assert t[0] == ws[0] && t[1..] == ws[1..] + s;
      ParseIntSkipsWhitespace(ws[1..], s);
    }
  }

  /** A text without any decimal digit is not a number to `parseInt`
      (this includes a bare "0x" prefix, which needs a '0'). */
  lemma {:induction false} ParseIntWithoutDigits(s: string)
    requires forall i :: 0 <= i < |s| ==> !IsDecimalDigit(s[i])
    ensures ParseInt(s) == None
  {
    if s != [] && IsJsWhitespace(s[0]) {
      ParseIntWithoutDigits(s[1..]);
    } else {
      var unsigned := if |s| > 0 && (s[0] == '-' || s[0] == '+') then s[1..] else s;
      assert forall i :: 0 <= i < |unsigned| ==> !IsDecimalDigit(unsigned[i]);
      assert ParseMagnitude(unsigned) == None by {
        assert DigitRun(unsigned, 10) == 0;
      }
    }
  }
}
