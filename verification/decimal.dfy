/** Integers as the browser writes and reads them: `Number.prototype.toString`
    for integers, and the global `parseInt` with no radix argument. */
module Decimal {
  import opened Options

  predicate IsDigit(c: char)
  {
    '0' <= c <= '9'
  }

  predicate AllDigits(s: string)
  {
    forall i :: 0 <= i < |s| ==> IsDigit(s[i])
  }

  function DigitValue(c: char): nat
    requires IsDigit(c)
  {
    c as int - '0' as int
  }

  function DigitChar(d: nat): (c: char)
    requires d < 10
    ensures IsDigit(c) && DigitValue(c) == d
  {
    ('0' as int + d) as char
  }

  predicate IsHexDigit(c: char)
  {
    IsDigit(c) || 'a' <= c <= 'f' || 'A' <= c <= 'F'
  }

  function HexDigitValue(c: char): (v: nat)
    requires IsHexDigit(c)
    ensures v < 16
  {
    if IsDigit(c) then DigitValue(c)
    else if 'a' <= c <= 'f' then c as int - 'a' as int + 10
    else c as int - 'A' as int + 10
  }

  /** The white space `parseInt` skips: the ECMAScript WhiteSpace and
      LineTerminator code points. */
  predicate IsJsWhiteSpace(c: char)
  {
    var u := c as int;
    || 9 <= u <= 13 || u == 0x20 || u == 0xA0 || u == 0x1680
    || 0x2000 <= u <= 0x200A || u == 0x2028 || u == 0x2029 || u == 0x202F
    || u == 0x205F || u == 0x3000 || u == 0xFEFF
  }

  // ---------------------------------------------------------------------
  // Writing

  /** The value of a string of decimal digits, most significant first. */
  function DigitsValue(s: string): nat
    requires AllDigits(s)
    decreases |s|
  {
    if |s| == 0 then 0 else 10 * DigitsValue(s[..|s| - 1]) + DigitValue(s[|s| - 1])
  }

  function HexValue(s: string): nat
    requires forall i :: 0 <= i < |s| ==> IsHexDigit(s[i])
    decreases |s|
  {
    if |s| == 0 then 0 else 16 * HexValue(s[..|s| - 1]) + HexDigitValue(s[|s| - 1])
  }

  /** The decimal numeral of `n`: digits only, no leading zero. */
  function NatToString(n: nat): (s: string)
    ensures |s| > 0 && AllDigits(s)
    ensures |s| > 1 ==> s[0] != '0'
    ensures DigitsValue(s) == n
    decreases n
  {
    if n < 10 then [DigitChar(n)]
    else
      var init := NatToString(n / 10);
      var s := init + [DigitChar(n % 10)];
      assert s[..|s| - 1] == init;
      s
  }

  /** `n.toString()` for an integer `n`: a minus sign exactly for a
      negative `n`, then the decimal numeral of its magnitude. */
  function IntToString(n: int): (s: string)
    ensures |s| > 0 && (s[0] == '-' <==> n < 0)
    ensures n >= 0 ==> AllDigits(s) && DigitsValue(s) == n && (|s| > 1 ==> s[0] != '0')
    ensures n < 0 ==> |s| > 1 && AllDigits(s[1..]) && DigitsValue(s[1..]) == -n && (|s| > 2 ==> s[1] != '0')
    ensures n >= 0 ==> s == NatToString(n)
    ensures n < 0 ==> s == "-" + NatToString(-n)
  {
    if n >= 0 then NatToString(n) else "-" + NatToString(-n)
  }

  // ---------------------------------------------------------------------
  // Reading

  /** `s` without its leading white space. */
  function TrimStart(s: string): (r: string)
    ensures |r| <= |s| && r == s[|s| - |r|..]
    ensures |r| > 0 ==> !IsJsWhiteSpace(r[0])
    ensures forall i :: 0 <= i < |s| - |r| ==> IsJsWhiteSpace(s[i])
    decreases |s|
  {
    if |s| > 0 && IsJsWhiteSpace(s[0]) then TrimStart(s[1..]) else s
  }

  /** Nothing to skip when the first character is not white space. */
  lemma TrimStartOfNonSpace(s: string)
    ensures |s| > 0 && !IsJsWhiteSpace(s[0]) ==> TrimStart(s) == s
  {
  }

  /** The longest prefix of `s` made of decimal digits. */
  function LeadingDigits(s: string): (r: string)
    ensures |r| <= |s| && r == s[..|r|] && AllDigits(r)
    ensures |r| < |s| ==> !IsDigit(s[|r|])
    decreases |s|
  {
    if |s| > 0 && IsDigit(s[0]) then [s[0]] + LeadingDigits(s[1..]) else []
  }

  /** The longest prefix of `s` made of hexadecimal digits. */
  function LeadingHexDigits(s: string): (r: string)
    ensures |r| <= |s| && r == s[..|r|]
    ensures forall i :: 0 <= i < |r| ==> IsHexDigit(r[i])
    ensures |r| < |s| ==> !IsHexDigit(s[|r|])
    decreases |s|
  {
    if |s| > 0 && IsHexDigit(s[0]) then [s[0]] + LeadingHexDigits(s[1..]) else []
  }

  /** The unsigned part of `parseInt`: a `0x` numeral in base 16, anything
      else in base 10, up to the first character that is not a digit;
      `None` when there is no digit at all. */
  function ParseMagnitude(u: string): (r: Option<nat>)
    ensures |u| == 0 ==> r == None
    ensures |u| > 0 && !IsDigit(u[0]) ==> r == None
    ensures |u| >= 2 && u[0] == '0' && (u[1] == 'x' || u[1] == 'X') ==>
      r == (if |LeadingHexDigits(u[2..])| == 0 then None else Some(HexValue(LeadingHexDigits(u[2..]))))
    ensures |u| > 0 && IsDigit(u[0]) && !(|u| >= 2 && u[0] == '0' && (u[1] == 'x' || u[1] == 'X')) ==>
      r == Some(DigitsValue(LeadingDigits(u)))
  {
    if |u| >= 2 && u[0] == '0' && (u[1] == 'x' || u[1] == 'X') then
      var h := LeadingHexDigits(u[2..]);
      if |h| == 0 then None else Some(HexValue(h))
    else
      var d := LeadingDigits(u);
      if |d| == 0 then None else Some(DigitsValue(d))
  }

  /** The sign and magnitude of `parseInt`, once the white space is gone. */
  function ParseSigned(t: string): (r: Option<int>)
    ensures |t| == 0 ==> r == None
    ensures |t| > 0 && t[0] != '-' && t[0] != '+' ==> r == ParseMagnitude(t)
    ensures |t| > 0 && t[0] == '+' ==> r == ParseMagnitude(t[1..])
    ensures |t| > 0 && t[0] == '-' && ParseMagnitude(t[1..]).None? ==> r == None
    ensures |t| > 0 && t[0] == '-' && ParseMagnitude(t[1..]).Some? ==>
      r == Some(-(ParseMagnitude(t[1..]).value as int))
  {
    var negative := |t| > 0 && t[0] == '-';
    var u := if |t| > 0 && (t[0] == '-' || t[0] == '+') then t[1..] else t;
    match ParseMagnitude(u)
    case None => None
    case Some(v) => Some(if negative then -(v as int) else v as int)
  }

  /** The global `parseInt(s)`: skip white space, take an optional sign,
      then read the magnitude. `None` is `NaN`. */
  function ParseInt(s: string): (r: Option<int>)
    ensures |TrimStart(s)| == 0 ==> r == None
    ensures |s| > 0 && !IsJsWhiteSpace(s[0]) && s[0] != '-' && s[0] != '+' ==> r == ParseMagnitude(s)
    ensures |s| > 0 && s[0] == '+' ==> r == ParseMagnitude(s[1..])
    ensures |s| > 0 && s[0] == '-' && ParseMagnitude(s[1..]).None? ==> r == None
    ensures |s| > 0 && s[0] == '-' && ParseMagnitude(s[1..]).Some? ==>
      r == Some(-(ParseMagnitude(s[1..]).value as int))
  {
    TrimStartOfNonSpace(s);
    ParseSigned(TrimStart(s))
  }

  /** Leading white space does not change what `parseInt` reads. */
  lemma ParseIntSkipsWhiteSpace(s: string)
    requires |s| > 0 && IsJsWhiteSpace(s[0])
    ensures ParseInt(s) == ParseInt(s[1..])
  {
  }

  /** A string of decimal digits is read whole, in base 10. */
  lemma MagnitudeOfDigits(s: string)
    requires |s| > 0 && AllDigits(s)
    ensures ParseMagnitude(s) == Some(DigitsValue(s))
  {
    LeadingDigitsOfDigits(s);
  }

  lemma {:induction false} LeadingDigitsOfDigits(s: string)
    requires AllDigits(s)
    ensures LeadingDigits(s) == s
    decreases |s|
  {
    if |s| > 0 {
      LeadingDigitsOfDigits(s[1..]);
      assert [s[0]] + s[1..] == s;
    }
  }

  lemma DigitIsNotWhiteSpace(c: char)
    requires IsDigit(c)
    ensures !IsJsWhiteSpace(c)
  {
  }

  /** A plain decimal numeral reads as its value. */
  lemma ParseIntOfDigits(s: string)
    requires |s| > 0 && AllDigits(s)
    ensures ParseInt(s) == Some(DigitsValue(s))
  {
    DigitIsNotWhiteSpace(s[0]);
    MagnitudeOfDigits(s);
  }

  /** A minus sign followed by a decimal numeral reads as its negation. */
  lemma ParseIntOfNegative(s: string)
    requires |s| > 1 && s[0] == '-' && AllDigits(s[1..])
    ensures ParseInt(s) == Some(-(DigitsValue(s[1..]) as int))
  {
    var t := s[1..];
    MagnitudeOfDigits(t);
    ParseIntOfMinus(s, DigitsValue(t));
  }

  /** A minus sign in front of a readable magnitude negates it. */
  lemma ParseIntOfMinus(s: string, v: nat)
    requires |s| > 0 && s[0] == '-' && ParseMagnitude(s[1..]) == Some(v)
    ensures ParseInt(s) == Some(-(v as int))
  {
  }

  lemma ParseIntOfNatToString(n: nat)
    ensures ParseInt(NatToString(n)) == Some(n)
  {
    ParseIntOfDigits(NatToString(n));
  }

  /** Reading back what `toString` wrote gives the same integer. */
  lemma ParseIntOfIntToString(n: int)
    ensures ParseInt(IntToString(n)) == Some(n)
  {
    if n >= 0 {
      ParseIntOfNatToString(n);
    } else {
      var s := IntToString(n);
      assert s[1..] == NatToString(-n);
      ParseIntOfNegative(s);
    }
  }
}
