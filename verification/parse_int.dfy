/**
 The global `parseInt(string)` of JavaScript, called without a radix, as
 section 19.2.5 of ECMA-262 defines it: skip leading white space, read an
 optional sign, switch to base 16 after a `0x`/`0X` prefix, and read the
 longest run of digits. An empty run gives NaN, written None here.
 */
module JsParseInt {
  import opened Wrappers

  /** The WhiteSpace and LineTerminator code points of ECMA-262 (sections
      12.2 and 12.3), which `parseInt` skips before the number. */
  predicate IsStrWhiteSpaceChar(c: char) {
    || c == '\t' || c == '\n' || c == '\r' || c == ' '
    || c == '\U{000B}' || c == '\U{000C}' || c == '\U{00A0}' || c == '\U{1680}'
    || '\U{2000}' <= c <= '\U{200A}'
    || c == '\U{2028}' || c == '\U{2029}' || c == '\U{202F}' || c == '\U{205F}'
    || c == '\U{3000}' || c == '\U{FEFF}'
  }

  /** `s` without its leading white space. */
  function TrimStart(s: string): (r: string)
    ensures |r| <= |s| && r == s[|s| - |r|..]
    ensures |r| > 0 ==> !IsStrWhiteSpaceChar(r[0])
    ensures forall i :: 0 <= i < |s| - |r| ==> IsStrWhiteSpaceChar(s[i])
    decreases |s|
  {
    if |s| > 0 && IsStrWhiteSpaceChar(s[0]) then TrimStart(s[1..]) else s
  }

  /** The value of `c` as a digit of a base up to 36 (0-9, then a-z or A-Z
      for 10-35), and 36 for a character that is no digit at all. */
  function DigitValue(c: char): (d: nat)
    ensures d < 10 <==> '0' <= c <= '9'
    ensures d <= 36
  {
    if '0' <= c <= '9' then c as int - '0' as int
    else if 'a' <= c <= 'z' then c as int - 'a' as int + 10
    else if 'A' <= c <= 'Z' then c as int - 'A' as int + 10
    else 36
  }

  /** The length of the longest prefix of `s` made of digits of base `radix`. */
  function DigitRun(s: string, radix: nat): (n: nat)
    ensures n <= |s|
    ensures forall i :: 0 <= i < n ==> DigitValue(s[i]) < radix
    ensures n < |s| ==> DigitValue(s[n]) >= radix
    decreases |s|
  {
    if |s| > 0 && DigitValue(s[0]) < radix then 1 + DigitRun(s[1..], radix) else 0
  }

  /** The number that the digits `ds` denote in base `radix`, most significant first. */
  function DigitsValue(ds: string, radix: nat): nat
    decreases |ds|
  {
    if |ds| == 0 then 0
    else DigitsValue(ds[..|ds| - 1], radix) * radix + DigitValue(ds[|ds| - 1])
  }

  /** True when `s`, read as `parseInt` reads it, starts with a `0x` or `0X` prefix. */
  predicate HasHexPrefix(s: string) {
    |s| >= 2 && s[0] == '0' && (s[1] == 'x' || s[1] == 'X')
  }

  /** `parseInt(s)`; None is NaN. The result is the exact integer: the
      rounding of very long digit runs to a double is not modelled. */
  function ParseInt(s: string): (r: Option<int>)
    ensures r.Some? ==>
      var t := TrimStart(s);
      |t| > 0 && (t[0] == '-' || t[0] == '+' || DigitValue(t[0]) < 10)
    ensures r.Some? && r.value < 0 ==> TrimStart(s)[0] == '-'
  {
    ParseSigned(TrimStart(s))
  }

  /** The part of `parseInt` after the white space: an optional sign, then
      the magnitude. */
  function ParseSigned(t: string): Option<int> {
    var negative := |t| > 0 && t[0] == '-';
    var magnitude := ParseUnsigned(if |t| > 0 && (t[0] == '-' || t[0] == '+') then t[1..] else t);
    match magnitude
    case None => None
    case Some(m) => Some(if negative then -(m as int) else m as int)
  }

  /** The part of `parseInt` after the sign: an optional hexadecimal prefix
      and the longest run of digits of the chosen base. */
  function ParseUnsigned(u: string): Option<nat> {
    if HasHexPrefix(u) then ReadDigits(u[2..], 16) else ReadDigits(u, 10)
  }

  /** The value of the longest run of digits of base `radix` at the start of
      `digits`; None when there is none. */
  function ReadDigits(digits: string, radix: nat): Option<nat> {
    var n := DigitRun(digits, radix);
    if n == 0 then None else Some(DigitsValue(digits[..n], radix))
  }

  /** The decimal digit character for `d`. */
  function DecimalDigit(d: nat): (c: char)
    requires d < 10
    ensures DigitValue(c) == d
  {
    ('0' as int + d) as char
  }

  /** The decimal numeral of `n`, without sign or leading zeros. */
  function NatToDecimal(n: nat): (s: string)
    ensures |s| > 0
    ensures forall i :: 0 <= i < |s| ==> DigitValue(s[i]) < 10
    ensures DigitsValue(s, 10) == n
    decreases n
  {
    if n < 10 then [DecimalDigit(n)]
    else
      var s := NatToDecimal(n / 10) + [DecimalDigit(n % 10)];
      assert s[..|s| - 1] == NatToDecimal(n / 10);
      s
  }

  /** `String(n)` for an integer `n`: an optional minus sign and the decimal numeral. */
  function IntToDecimal(n: int): string {
    if n < 0 then "-" + NatToDecimal(-n) else NatToDecimal(n)
  }

  /** Leading white space does not change what `TrimStart` leaves. */
  lemma {:induction false} TrimStartSkips(ws: string, s: string)
    requires forall i :: 0 <= i < |ws| ==> IsStrWhiteSpaceChar(ws[i])
    requires |s| > 0 && !IsStrWhiteSpaceChar(s[0])
    ensures TrimStart(ws + s) == s
    decreases |ws|
  {
    if |ws| == 0 {
      assert ws + s == s;
    } else {
      assert (ws + s)[1..] == ws[1..] + s;
      TrimStartSkips(ws[1..], s);
    }
  }

  /** The digit run of a numeral followed by a non-digit is the numeral. */
  lemma {:induction false} DigitRunStopsAtNonDigit(ds: string, rest: string, radix: nat)
    requires forall i :: 0 <= i < |ds| ==> DigitValue(ds[i]) < radix
    requires |rest| == 0 || DigitValue(rest[0]) >= radix
    ensures DigitRun(ds + rest, radix) == |ds|
    decreases |ds|
  {
    if |ds| == 0 {
      assert ds + rest == rest;
    } else {
      assert (ds + rest)[1..] == ds[1..] + rest;
      DigitRunStopsAtNonDigit(ds[1..], rest, radix);
    }
  }

  /** What may follow the numeral of `n` without being read as part of it:
      nothing, or a text starting with a non-digit that, when the numeral is
      `0`, is not the `x` of a hex prefix either. */
  predicate EndsNumeral(n: int, rest: string) {
    |rest| == 0 || (DigitValue(rest[0]) >= 10 && (n != 0 || (rest[0] != 'x' && rest[0] != 'X')))
  }

  /** A decimal numeral followed by a non-digit reads back as its value. */
  lemma ParseUnsignedReadsDecimal(m: nat, rest: string)
    requires EndsNumeral(m, rest)
    ensures ParseUnsigned(NatToDecimal(m) + rest) == Some(m)
  {
    var ds := NatToDecimal(m);
    var u := ds + rest;
    assert !HasHexPrefix(u) by {
      if |ds| >= 2 {
        assert DigitValue(u[1]) < 10;
      } else if |rest| > 0 {
        assert m < 10 && u[0] == DecimalDigit(m) && u[1] == rest[0];
      }
    }
    DigitRunStopsAtNonDigit(ds, rest, 10);
    assert u[..|ds|] == ds;
  }

  /** A text that starts with neither sign is read as a non-negative magnitude. */
  lemma ParseSignedUnsigned(u: string)
    requires |u| > 0 && u[0] != '-' && u[0] != '+'
    ensures ParseSigned(u) == match ParseUnsigned(u) case None => None case Some(m) => Some(m as int)
  {
  }

  /** A minus sign negates the magnitude that follows it. */
  lemma ParseSignedMinus(u: string)
    ensures ParseSigned("-" + u) == match ParseUnsigned(u) case None => None case Some(m) => Some(-(m as int))
  {
    assert ("-" + u)[1..] == u;
  }

  /** After the white space, a signed numeral reads back as its value. */
  lemma ParseSignedReadsDecimal(n: int, rest: string)
    requires EndsNumeral(n, rest)
    ensures ParseSigned(IntToDecimal(n) + rest) == Some(n)
  {
    if n < 0 {
      NegativeReadsBack(n, rest);
    } else {
      NonNegativeReadsBack(n, rest);
    }
  }

  lemma NegativeReadsBack(n: int, rest: string)
    requires n < 0 && EndsNumeral(n, rest)
    ensures ParseSigned(IntToDecimal(n) + rest) == Some(n)
  {
    var m: nat := -n;
    assert EndsNumeral(m, rest);
    ParseUnsignedReadsDecimal(m, rest);
    MinusNumeral(n, rest);
    ParseSignedMinus(NatToDecimal(m) + rest);
  }

  /** The numeral of a negative `n`, followed by `rest`, is a minus sign
      before the numeral of `-n` followed by `rest`. */
  lemma MinusNumeral(n: int, rest: string)
    requires n < 0
    ensures IntToDecimal(n) + rest == "-" + (NatToDecimal(-n) + rest)
  {
    var ds := NatToDecimal(-n);
    assert ("-" + ds) + rest == "-" + (ds + rest);
  }

  lemma NonNegativeReadsBack(n: nat, rest: string)
    requires EndsNumeral(n, rest)
    ensures ParseSigned(IntToDecimal(n) + rest) == Some(n)
  {
    var u := NatToDecimal(n) + rest;
    ParseUnsignedReadsDecimal(n, rest);
    assert IntToDecimal(n) + rest == u;
    assert DigitValue(u[0]) < 10;
    ParseSignedUnsigned(u);
  }

  /** `parseInt` reads back the numeral `String(n)` wrapped in any leading
      white space and followed by anything that does not continue it. */
  lemma ParseIntReadsDecimal(ws: string, n: int, rest: string)
    requires forall i :: 0 <= i < |ws| ==> IsStrWhiteSpaceChar(ws[i])
    requires EndsNumeral(n, rest)
    ensures ParseInt(ws + IntToDecimal(n) + rest) == Some(n)
  {
    var s := IntToDecimal(n) + rest;
    assert ws + IntToDecimal(n) + rest == ws + s;
    var ds := NatToDecimal(if n < 0 then -n else n);
    assert DigitValue(ds[0]) < 10;
    assert s[0] == '-' || s[0] == ds[0];
    TrimStartSkips(ws, s);
    ParseSignedReadsDecimal(n, rest);
  }

  /** `parseInt` inverts `String` on integers. */
  lemma ParseIntRoundTrip(n: int)
    ensures ParseInt(IntToDecimal(n)) == Some(n)
  {
    var d := IntToDecimal(n);
    assert "" + d == d;
    assert d + "" == d;
    ParseIntReadsDecimal("", n, "");
  }

  /** A text whose first character is neither white space, nor a sign, nor a
      decimal digit is NaN to `parseInt`. */
  lemma NonNumericIsNaN(s: string)
    requires |s| == 0 || (!IsStrWhiteSpaceChar(s[0]) && s[0] != '+' && s[0] != '-' && DigitValue(s[0]) >= 10)
    ensures ParseInt(s) == None
  {
  }

  /** `parseInt(undefined)` and `parseInt(null)` read the texts "undefined"
      and "null", and both are NaN. */
  lemma UndefinedAndNullAreNaN()
    ensures ParseInt("undefined") == None
    ensures ParseInt("null") == None
  {
    WordIsNaN("undefined");
    WordIsNaN("null");
  }

  lemma WordIsNaN(s: string)
    requires s == "undefined" || s == "null"
    ensures ParseInt(s) == None
  {
    NonNumericIsNaN(s);
  }
}
