/** `parseInt(string, 10)` as section 19.2.5 of ECMA-262 defines it, for the
    string argument: skip leading white space, take an optional sign, take the
    longest run of decimal digits that follows, and give NaN when that run is
    empty. */
module EcmaParseInt {

  /** The Number that `parseInt` returns: NaN or an integer. The value −0
      (from inputs such as "-0") is folded into 0. */
  datatype NumberValue = NaN | Int(value: int)

  /** The WhiteSpace and LineTerminator code points of ECMA-262 (sections
      12.2 and 12.3), which TrimString removes: TAB, VT, FF, ZWNBSP, the
      space separators of category Zs, LF, CR, LS and PS. */
  predicate IsStrWhiteSpaceChar(c: char)
  {
    || c == '\t' || c == '\U{000B}' || c == '\U{000C}' || c == '\U{FEFF}'
    || c == ' ' || c == '\U{00A0}' || c == '\U{1680}' || '\U{2000}' <= c <= '\U{200A}'
    || c == '\U{202F}' || c == '\U{205F}' || c == '\U{3000}'
    || c == '\n' || c == '\r' || c == '\U{2028}' || c == '\U{2029}'
  }

  predicate IsDigit(c: char) { '0' <= c <= '9' }

  predicate AllDigits(s: string) { forall i :: 0 <= i < |s| ==> IsDigit(s[i]) }

  predicate AllWhiteSpace(s: string) { forall i :: 0 <= i < |s| ==> IsStrWhiteSpaceChar(s[i]) }

  function DigitValue(c: char): (d: nat)
    requires IsDigit(c)
    ensures d < 10
  {
    c as int - '0' as int
  }

  function DigitChar(d: nat): (c: char)
    requires d < 10
    ensures IsDigit(c) && DigitValue(c) == d
  {
    (d + '0' as int) as char
  }

  /** TrimString(s, start): `s` without its leading white space. */
  function TrimStart(s: string): (r: string)
    ensures |r| <= |s| && r == s[|s| - |r|..]
    ensures AllWhiteSpace(s[..|s| - |r|])
    ensures r == [] || !IsStrWhiteSpaceChar(r[0])
  {
    if s != [] && IsStrWhiteSpaceChar(s[0]) then TrimStart(s[1..]) else s
  }

  /** The longest prefix of `s` made of decimal digits. */
  function LeadingDigits(s: string): (r: string)
    ensures |r| <= |s| && r == s[..|r|]
    ensures AllDigits(r)
    ensures |r| == |s| || !IsDigit(s[|r|])
  {
    if s != [] && IsDigit(s[0]) then [s[0]] + LeadingDigits(s[1..]) else []
  }

  /** The mathematical value of a digit string in radix 10. */
  function DigitsValue(ds: string): nat
    requires AllDigits(ds)
  {
    if ds == [] then 0 else DigitsValue(ds[..|ds| - 1]) * 10 + DigitValue(ds[|ds| - 1])
  }

  /** `s` after its leading white space and an optional sign. */
  function Unsigned(s: string): string
  {
    var t := TrimStart(s);
    if t != [] && (t[0] == '-' || t[0] == '+') then t[1..] else t
  }

  /** `parseInt(s, 10)`: NaN exactly when no digit follows the white space
      and the optional sign; never negative without a minus sign. */
  function ParseInt(s: string): (r: NumberValue)
    ensures r.NaN? <==> Unsigned(s) == [] || !IsDigit(Unsigned(s)[0])
    ensures r.Int? && (TrimStart(s) == [] || TrimStart(s)[0] != '-') ==> r.value >= 0
  {
    var t := TrimStart(s);
    var z := LeadingDigits(Unsigned(s));
    if z == [] then NaN
    else if t != [] && t[0] == '-' then Int(-(DigitsValue(z) as int))
    else Int(DigitsValue(z))
  }

  /** The decimal numeral of a natural number, most significant digit first. */
  function NatToDecimal(n: nat): (ds: string)
    ensures ds != [] && AllDigits(ds)
  {
    if n < 10 then [DigitChar(n)] else NatToDecimal(n / 10) + [DigitChar(n % 10)]
  }

  /** `String(n)` for an integer `n`. */
  function IntToString(n: int): string
  {
    if n < 0 then "-" + NatToDecimal(-n) else NatToDecimal(n)
  }

  lemma {:induction false} NatToDecimalValue(n: nat)
    ensures DigitsValue(NatToDecimal(n)) == n
  {
    if n >= 10 {
      var ds := NatToDecimal(n);
      assert ds[..|ds| - 1] == NatToDecimal(n / 10);
      NatToDecimalValue(n / 10);
    }
  }

  /** The digit run of a numeral followed by a non-digit is that numeral. */
  lemma {:induction false} LeadingDigitsStopAtNonDigit(ds: string, rest: string)
    requires AllDigits(ds)
    requires rest == [] || !IsDigit(rest[0])
    ensures LeadingDigits(ds + rest) == ds
  {
    if ds != [] {
      assert (ds + rest)[0] == ds[0] && (ds + rest)[1..] == ds[1..] + rest;
      LeadingDigitsStopAtNonDigit(ds[1..], rest);
    } else {
      assert ds + rest == rest;
    }
  }

  /** Leading white space never changes what `parseInt` reads. */
  lemma {:induction false} ParseIntSkipsWhiteSpace(ws: string, s: string)
    requires AllWhiteSpace(ws)
    ensures ParseInt(ws + s) == ParseInt(s)
  {
    assert TrimStart(ws + s) == TrimStart(s) by {
      TrimStartSkips(ws, s);
    }
  }

  lemma {:induction false} TrimStartSkips(ws: string, s: string)
    requires AllWhiteSpace(ws)
    ensures TrimStart(ws + s) == TrimStart(s)
  {
    if ws == [] {
      assert ws + s == s;
    } else {
      assert (ws + s)[0] == ws[0] && (ws + s)[1..] == ws[1..] + s;
      TrimStartSkips(ws[1..], s);
    }
  }

  /** A numeral without sign, followed by a non-digit, reads as its value. */
  lemma UnsignedNumeral(ds: string, rest: string)
    requires ds != [] && AllDigits(ds)
    requires rest == [] || !IsDigit(rest[0])
    ensures ParseInt(ds + rest) == Int(DigitsValue(ds))
  {
    var s := ds + rest;
    assert s[0] == ds[0] && IsDigit(s[0]);
    assert !IsStrWhiteSpaceChar(s[0]) && s[0] != '-' && s[0] != '+';
    assert TrimStart(s) == s;
    LeadingDigitsStopAtNonDigit(ds, rest);
  }

  /** A numeral after a minus sign, followed by a non-digit, reads as the
      negated value. */
  lemma NegatedNumeral(ds: string, rest: string)
    requires ds != [] && AllDigits(ds)
    requires rest == [] || !IsDigit(rest[0])
    ensures ParseInt("-" + ds + rest) == Int(-(DigitsValue(ds) as int))
  {
    var s := "-" + ds + rest;
    assert s == ['-'] + (ds + rest);
    assert s[0] == '-' && !IsStrWhiteSpaceChar(s[0]);
    assert TrimStart(s) == s;
    assert s[1..] == ds + rest;
    LeadingDigitsStopAtNonDigit(ds, rest);
    ParseIntAfterMinus(s, ds);
  }

  lemma ParseIntAfterMinus(s: string, ds: string)
    requires ds != [] && AllDigits(ds)
    requires s != [] && s[0] == '-' && TrimStart(s) == s && LeadingDigits(s[1..]) == ds
    ensures ParseInt(s) == Int(-(DigitsValue(ds) as int))
  {
  }

  /** Round trip: `parseInt` reads back the decimal form of every integer,
      after any leading white space and up to the first character that is
      not a digit. So "12abc" and "12.7" read as 12, and "-5" as −5. */
  lemma {:induction false} ParseIntReadsIntToString(ws: string, n: int, rest: string)
    requires AllWhiteSpace(ws)
    requires rest == [] || !IsDigit(rest[0])
    ensures ParseInt(ws + IntToString(n) + rest) == Int(n)
  {
    assert ws + IntToString(n) + rest == ws + (IntToString(n) + rest);
    ParseIntSkipsWhiteSpace(ws, IntToString(n) + rest);
    ParseIntReadsNumeral(n, rest);
    assert ParseInt(ws + (IntToString(n) + rest)) == ParseInt(IntToString(n) + rest);
  }

  lemma ParseIntReadsNumeral(n: int, rest: string)
    requires rest == [] || !IsDigit(rest[0])
    ensures ParseInt(IntToString(n) + rest) == Int(n)
  {
    if n < 0 {
      ParseIntReadsNegative(n, rest);
    } else {
      var ds := NatToDecimal(n);
      assert IntToString(n) + rest == ds + rest;
      NatToDecimalValue(n);
      UnsignedNumeral(ds, rest);
    }
  }

  lemma ParseIntReadsNegative(n: int, rest: string)
    requires n < 0
    requires rest == [] || !IsDigit(rest[0])
    ensures ParseInt(IntToString(n) + rest) == Int(n)
  {
    var ds := NatToDecimal(-n);
    var v := DigitsValue(ds);
    assert v == -n by {
      NatToDecimalValue(-n);
    }
    calc {
      ParseInt(IntToString(n) + rest);
      { assert IntToString(n) == "-" + ds; }
      ParseInt("-" + ds + rest);
      { NegatedNumeral(ds, rest); }
      Int(-(v as int));
    }
  }

  /** Without a digit right after the optional sign, the result is NaN. */
  lemma ParseIntNaNWithoutDigits(s: string)
    requires AllWhiteSpace(s) || (s != [] && !IsStrWhiteSpaceChar(s[0]) && !IsDigit(s[0]) && s[0] != '-' && s[0] != '+')
    ensures ParseInt(s) == NaN
  {
    if AllWhiteSpace(s) {
      assert s + [] == s;
      TrimStartSkips(s, []);
    }
  }
}
