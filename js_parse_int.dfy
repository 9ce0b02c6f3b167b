/** The JavaScript built-in `parseInt(s, 10)` as used on the `content-length`
    header in lib/ai/tools/answer-from-pdf.ts: skip leading white space, read
    an optional sign, then the longest run of decimal digits. No digit at all
    gives NaN. Whatever follows the digits is ignored. */
module JsParseInt {

  /** A JavaScript number as `parseInt` can produce it: NaN or an integer. */
  datatype Number = NaN | Int(value: int)

  /** The white space and line terminators that `parseInt` skips
      (StrWhiteSpaceChar of ECMAScript: TAB, VT, FF, the Zs space separators,
      the byte order mark and LF, CR, LS, PS). */
  predicate IsWhiteSpace(c: char) {
    c == '\t' || c == '\n' || c == '\U{000B}' || c == '\U{000C}' || c == '\r' ||
    c == ' ' || c == '\U{00A0}' || c == '\U{1680}' || ('\U{2000}' <= c <= '\U{200A}') ||
    c == '\U{2028}' || c == '\U{2029}' || c == '\U{202F}' || c == '\U{205F}' ||
    c == '\U{3000}' || c == '\U{FEFF}'
  }

  predicate IsDigit(c: char) {
    '0' <= c <= '9'
  }

  predicate AllDigits(s: string) {
    forall i :: 0 <= i < |s| ==> IsDigit(s[i])
  }

  /** `s` without its leading white space (see TrimStartSound). */
  function TrimStart(s: string): string {
    if s != [] && IsWhiteSpace(s[0]) then TrimStart(s[1..]) else s
  }

  /** The longest prefix of `s` made of decimal digits (see
      LeadingDigitsSound). */
  function LeadingDigits(s: string): string {
    if s != [] && IsDigit(s[0]) then [s[0]] + LeadingDigits(s[1..]) else []
  }

  /** The value of a decimal digit. */
  function DigitValue(c: char): (d: nat)
    ensures d < 10
  {
    if IsDigit(c) then c as int - '0' as int else 0
  }

  function DigitChar(d: nat): (c: char)
    requires d < 10
    ensures IsDigit(c) && DigitValue(c) == d
  {
    ('0' as int + d) as char
  }

  /** The value of a string of decimal digits, most significant first. */
  function DigitsValue(ds: string): nat {
    if ds == [] then 0
    else DigitsValue(ds[..|ds| - 1]) * 10 + DigitValue(ds[|ds| - 1])
  }

  /** The decimal rendering of `n`, without leading zeros. */
  function Decimal(n: nat): (s: string)
    ensures s != [] && AllDigits(s)
    ensures s[0] == '0' ==> n == 0
  {
    if n < 10 then [DigitChar(n)] else Decimal(n / 10) + [DigitChar(n % 10)]
  }

  /** `parseInt(s, 10)`: a number exactly when a digit follows the leading
      white space and at most one sign (see ParseDecimal, NoDigitsIsNaN). */
  function ParseInt(s: string): (r: Number)
    ensures r.Int? <==> WithoutSign(TrimStart(s)) != [] && IsDigit(WithoutSign(TrimStart(s))[0])
  {
    ParseTrimmed(TrimStart(s))
  }

  /** `parseInt` on a string that starts with no white space. */
  function ParseTrimmed(t: string): Number {
    var negative := t != [] && t[0] == '-';
    var ds := LeadingDigits(WithoutSign(t));
    if ds == [] then NaN
    else if negative then Int(-(DigitsValue(ds) as int))
    else Int(DigitsValue(ds))
  }

  /** `t` without one leading '+' or '-'. */
  function WithoutSign(t: string): (u: string)
    ensures t != [] && (t[0] == '-' || t[0] == '+') ==> u == t[1..]
    ensures t == [] || !(t[0] == '-' || t[0] == '+') ==> u == t
  {
    if t != [] && (t[0] == '-' || t[0] == '+') then t[1..] else t
  }

  /** TrimStart drops exactly the leading white space: what it returns is
      a suffix of `s`, everything before it is white space, and it does not
      itself start with white space. */
  lemma {:induction false} TrimStartSound(s: string)
    ensures |TrimStart(s)| <= |s| && TrimStart(s) == s[|s| - |TrimStart(s)|..]
    ensures forall i :: 0 <= i < |s| - |TrimStart(s)| ==> IsWhiteSpace(s[i])
    ensures TrimStart(s) == [] || !IsWhiteSpace(TrimStart(s)[0])
  {
    if s != [] && IsWhiteSpace(s[0]) {
      TrimStartSound(s[1..]);
      forall i | 1 <= i < |s| - |TrimStart(s)|
        ensures IsWhiteSpace(s[i])
      {
        assert s[i] == s[1..][i - 1];
      }
    }
  }

  /** LeadingDigits returns the longest all-digit prefix of `s`. */
  lemma {:induction false} LeadingDigitsSound(s: string)
    ensures |LeadingDigits(s)| <= |s| && LeadingDigits(s) == s[..|LeadingDigits(s)|]
    ensures AllDigits(LeadingDigits(s))
    ensures |LeadingDigits(s)| == |s| || !IsDigit(s[|LeadingDigits(s)|])
  {
    if s != [] && IsDigit(s[0]) {
      LeadingDigitsSound(s[1..]);
      var ds := LeadingDigits(s);
      assert ds == [s[0]] + LeadingDigits(s[1..]);
      forall i | 1 <= i < |ds|
        ensures IsDigit(ds[i])
      {
        assert ds[i] == LeadingDigits(s[1..])[i - 1];
      }
      if |ds| < |s| {
        assert s[|ds|] == s[1..][|ds| - 1];
      }
    }
  }

  /** The digits at the head of `ds + rest` are `ds` when `rest` does not
      start with a digit. */
  lemma {:induction false} LeadingDigitsOfDigitsThen(ds: string, rest: string)
    requires AllDigits(ds)
    requires rest == [] || !IsDigit(rest[0])
    ensures LeadingDigits(ds + rest) == ds
  {
    if ds != [] {
      assert (ds + rest)[1..] == ds[1..] + rest;
      LeadingDigitsOfDigitsThen(ds[1..], rest);
    }
  }

  lemma {:induction false} DecimalValue(n: nat)
    ensures DigitsValue(Decimal(n)) == n
  {
    if n >= 10 {
      var s := Decimal(n);
      assert s[..|s| - 1] == Decimal(n / 10);
      DecimalValue(n / 10);
    }
  }

  /** A run of digits, followed by anything that is not a digit, parses to
      the value of the digits. */
  lemma ParseDigitsThen(ds: string, rest: string)
    requires ds != [] && AllDigits(ds)
    requires rest == [] || !IsDigit(rest[0])
    ensures ParseInt(ds + rest) == Int(DigitsValue(ds))
  {
    var s := ds + rest;
    assert s[0] == ds[0] && IsDigit(s[0]) && !IsWhiteSpace(s[0]);
    assert TrimStart(s) == s;
    assert WithoutSign(s) == s;
    LeadingDigitsOfDigitsThen(ds, rest);
    assert ParseTrimmed(s) == Int(DigitsValue(ds));
  }

  /** A well-formed `content-length` value, followed by anything that is not
      a digit, parses back to the number it renders. */
  lemma ParseDecimal(n: nat, rest: string)
    requires rest == [] || !IsDigit(rest[0])
    ensures ParseInt(Decimal(n) + rest) == Int(n)
  {
    ParseDigitsThen(Decimal(n), rest);
    DecimalValue(n);
  }

  /** A leading minus sign negates the value. */
  lemma ParseNegativeDecimal(n: nat, rest: string)
    requires rest == [] || !IsDigit(rest[0])
    ensures ParseInt("-" + Decimal(n) + rest) == Int(-(n as int))
  {
    var s := "-" + Decimal(n) + rest;
    assert s[0] == '-' && !IsWhiteSpace(s[0]);
    assert TrimStart(s) == s;
    assert WithoutSign(s) == Decimal(n) + rest;
    LeadingDigitsOfDigitsThen(Decimal(n), rest);
    DecimalValue(n);
    assert ParseTrimmed(s) == Int(-(n as int));
  }

  lemma {:induction false} TrimStartSkipsWhiteSpace(ws: string, s: string)
    requires forall i :: 0 <= i < |ws| ==> IsWhiteSpace(ws[i])
    ensures TrimStart(ws + s) == TrimStart(s)
  {
    if ws == [] {
      assert ws + s == s;
    } else {
      assert (ws + s)[0] == ws[0];
      assert (ws + s)[1..] == ws[1..] + s;
      TrimStartSkipsWhiteSpace(ws[1..], s);
    }
  }

  /** Leading white space never changes the parsed value. */
  lemma ParseSkipsWhiteSpace(ws: string, s: string)
    requires forall i :: 0 <= i < |ws| ==> IsWhiteSpace(ws[i])
    ensures ParseInt(ws + s) == ParseInt(s)
  {
    TrimStartSkipsWhiteSpace(ws, s);
  }

  /** `parseInt(undefined, 10)` reads the string "undefined": NaN. */
  lemma UndefinedIsNaN()
    ensures ParseInt("undefined") == NaN
  {
    var s := "undefined";
    assert s[0] == 'u' && !IsWhiteSpace(s[0]) && !IsDigit(s[0]);
    assert TrimStart(s) == s;
    assert WithoutSign(s) == s;
    assert LeadingDigits(s) == [];
  }

  /** A string whose first non-blank character is neither a sign nor a
      digit is NaN; in particular the empty string and "undefined", which is
      what `parseInt` reads when the header is missing. */
  lemma NoDigitsIsNaN(s: string)
    requires TrimStart(s) == [] || !(IsDigit(TrimStart(s)[0]) || TrimStart(s)[0] in "+-")
    ensures ParseInt(s) == NaN
  {
  }
}
