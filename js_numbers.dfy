/** The JavaScript number conversions the components rely on: integer
    rendering in template literals, `parseFloat`, `parseInt`, `toFixed(2)`
    and the en-US currency format. Numbers are exact: integers for whole
    values, reals for what `parseFloat` reads. */
module JsNumber {
  import opened Wrappers

  predicate IsDigit(c: char) { '0' <= c <= '9' }

  function DigitValue(c: char): nat
    requires IsDigit(c)
  {
    c as int - '0' as int
  }

  function DigitChar(d: nat): (c: char)
    requires d < 10
    ensures IsDigit(c) && DigitValue(c) == d
  {
    (d + '0' as int) as char
  }

  predicate AllDigits(s: string)
  {
    forall i :: 0 <= i < |s| ==> IsDigit(s[i])
  }

  /** `String(n)` for an integer n >= 0: its decimal digits, no leading zero. */
  function NatToString(n: nat): (r: string)
    ensures |r| > 0 && AllDigits(r)
    ensures |r| > 1 ==> r[0] != '0'
    decreases n
  {
    if n < 10 then [DigitChar(n)] else NatToString(n / 10) + [DigitChar(n % 10)]
  }

  /** The value of a string of decimal digits. */
  function DigitsValue(s: string): nat
    requires AllDigits(s)
  {
    if s == [] then 0 else DigitsValue(s[..|s| - 1]) * 10 + DigitValue(s[|s| - 1])
  }

  /** Reading back what `NatToString` printed gives the number again. */
  lemma {:induction false} NatToStringValue(n: nat)
    ensures DigitsValue(NatToString(n)) == n
    decreases n
  {
    if n >= 10 {
      NatToStringValue(n / 10);
      var s := NatToString(n);
      assert s[..|s| - 1] == NatToString(n / 10);
    }
  }

  /** `${n}` for an integer n: a minus sign, if negative, then the digits. */
  function IntToString(n: int): (r: string)
    ensures |r| > 0 && (r[0] == '-' <==> n < 0)
    ensures n < 0 ==> |r| > 1 && AllDigits(r[1..])
    ensures n >= 0 ==> AllDigits(r)
  {
    if n < 0 then "-" + NatToString(-n) else NatToString(n)
  }

  /** A character `parseFloat` and `parseInt` skip at the start
      (StrWhiteSpaceChar: white space and line terminators). */
  predicate IsJsSpace(c: char)
  {
    c == '\t' || c == '\n' || c == '\U{000B}' || c == '\U{000C}' || c == '\r' || c == ' '
    || c == '\U{00A0}' || c == '\U{1680}' || ('\U{2000}' <= c <= '\U{200A}')
    || c == '\U{2028}' || c == '\U{2029}' || c == '\U{202F}' || c == '\U{205F}'
    || c == '\U{3000}' || c == '\U{FEFF}'
  }

  /** Drops leading white space. */
  function TrimStart(s: string): (r: string)
    ensures |r| <= |s| && r == s[|s| - |r|..]
    ensures r == [] || !IsJsSpace(r[0])
    ensures forall i :: 0 <= i < |s| - |r| ==> IsJsSpace(s[i])
  {
    if s != [] && IsJsSpace(s[0]) then TrimStart(s[1..]) else s
  }

  /** The longest prefix of decimal digits. */
  function DigitPrefix(s: string): (r: string)
    ensures r <= s && AllDigits(r)
    ensures |r| < |s| ==> !IsDigit(s[|r|])
  {
    if s != [] && IsDigit(s[0]) then [s[0]] + DigitPrefix(s[1..]) else []
  }

  function Pow10(k: nat): (r: nat)
    ensures r > 0
  {
    if k == 0 then 1 else 10 * Pow10(k - 1)
  }

  /** Strips one leading sign. */
  function Unsigned(t: string): string
  {
    if t != [] && (t[0] == '-' || t[0] == '+') then t[1..] else t
  }

  /** The unsigned part of a decimal literal: digits [. digits], at least one digit. */
  function ParseUnsignedDecimal(u: string): Option<real>
  {
    var whole := DigitPrefix(u);
    var rest := u[|whole|..];
    var fraction := if rest != [] && rest[0] == '.' then DigitPrefix(rest[1..]) else [];
    if whole == [] && fraction == [] then None
    else Some(DigitsValue(whole) as real + FractionValue(fraction))
  }

  /** The value of the digits after a decimal point. */
  function FractionValue(ds: string): (r: real)
    requires AllDigits(ds)
    ensures ds == [] ==> r == 0.0
  {
    if ds == [] then 0.0 else DigitsValue(ds) as real / Pow10(|ds|) as real
  }

  /** `parseFloat(s)`: the longest prefix of the form [sign] digits [. digits]
      after leading white space; `None` stands for NaN. */
  function ParseFloat(s: string): Option<real>
  {
    var t := TrimStart(s);
    match ParseUnsignedDecimal(Unsigned(t))
    case None => None
    case Some(m) => Some(if t != [] && t[0] == '-' then -m else m)
  }

  /** `parseInt(s)` with no radix, for decimal input: [sign] digits after
      leading white space; `None` stands for NaN. */
  function ParseInt(s: string): Option<int>
  {
    var t := TrimStart(s);
    var whole := DigitPrefix(Unsigned(t));
    var m: int := DigitsValue(whole);
    if whole == [] then None
    else Some(if t != [] && t[0] == '-' then -m else m)
  }

  lemma {:induction false} DigitPrefixStopsAtNonDigit(ds: string, rest: string)
    requires AllDigits(ds)
    requires rest == [] || !IsDigit(rest[0])
    ensures DigitPrefix(ds + rest) == ds
  {
    if ds != [] {
      assert (ds + rest)[1..] == ds[1..] + rest;
      DigitPrefixStopsAtNonDigit(ds[1..], rest);
    }
  }

  /** Digits followed by something that cannot continue a number read as
      exactly those digits. */
  lemma UnsignedDecimalOfDigits(ds: string, suffix: string)
    requires ds != [] && AllDigits(ds)
    requires suffix == [] || (!IsDigit(suffix[0]) && suffix[0] != '.')
    ensures ParseUnsignedDecimal(ds + suffix) == Some(DigitsValue(ds) as real)
  {
    var u := ds + suffix;
    DigitPrefixStopsAtNonDigit(ds, suffix);
    assert DigitPrefix(u) == ds;
    assert u[|ds|..] == suffix;
  }

  lemma SignOrDigitIsNotSpace(c: char)
    requires c == '-' || IsDigit(c)
    ensures !IsJsSpace(c)
  {
  }

  /** Nothing is trimmed from a string that starts with a non-space. */
  lemma TrimStartKeepsNonSpace(s: string)
    requires s != [] && !IsJsSpace(s[0])
    ensures TrimStart(s) == s
  {
  }

  /** A rendered integer has no leading white space, and without its sign it
      is the digits of its magnitude. */
  lemma RenderedIntShape(n: int, suffix: string)
    ensures TrimStart(IntToString(n) + suffix) == IntToString(n) + suffix
    ensures Unsigned(IntToString(n) + suffix) == NatToString(if n < 0 then -n else n) + suffix
  {
    var s := IntToString(n) + suffix;
    SignOrDigitIsNotSpace(s[0]);
    TrimStartKeepsNonSpace(s);
    if n < 0 {
      assert s == "-" + (NatToString(-n) + suffix);
    }
  }

  /** `parseFloat` reads an integer back from its rendering, whatever
      follows it, as long as the next character cannot continue a number. */
  lemma ParseFloatOfRenderedInt(n: int, suffix: string)
    requires suffix == [] || (!IsDigit(suffix[0]) && suffix[0] != '.')
    ensures ParseFloat(IntToString(n) + suffix) == Some(n as real)
  {
    var m: nat := if n < 0 then -n else n;
    RenderedIntShape(n, suffix);
    UnsignedDecimalOfDigits(NatToString(m), suffix);
    NatToStringValue(m);
  }

  /** `parseInt` reads an integer back from its rendering. */
  lemma ParseIntOfRenderedInt(n: int)
    ensures ParseInt(IntToString(n)) == Some(n)
  {
    var m: nat := if n < 0 then -n else n;
    RenderedIntShape(n, []);
    assert IntToString(n) + [] == IntToString(n);
    assert NatToString(m) + [] == NatToString(m);
    DigitPrefixStopsAtNonDigit(NatToString(m), []);
    NatToStringValue(m);
  }

  /** A string whose first character is none of white space, a sign, a digit
      or a decimal point is NaN to `parseFloat`: "$12.99", "€ 3.50". */
  lemma ParseFloatRejectsLeadingSymbol(s: string)
    requires s != [] && !IsJsSpace(s[0]) && !IsDigit(s[0])
    requires s[0] != '-' && s[0] != '+' && s[0] != '.'
    ensures ParseFloat(s) == None
  {
    assert TrimStart(s) == s;
  }

  /** Two decimal digits, zero-padded. */
  function TwoDigits(d: nat): string
    requires d < 100
  {
    [DigitChar(d / 10), DigitChar(d % 10)]
  }

  /** The two digits read back as d. */
  lemma TwoDigitsValue(d: nat)
    requires d < 100
    ensures AllDigits(TwoDigits(d)) && DigitsValue(TwoDigits(d)) == d
  {
    var t := TwoDigits(d);
    var h := t[..1];
    assert h[..0] == [];
    assert DigitsValue(h) == d / 10;
    assert DigitsValue(t) == DigitsValue(h) * 10 + d % 10;
  }

  /** `x.toFixed(2)` for an amount of `cents` hundredths. */
  function Fixed2(cents: nat): (r: string)
    ensures |r| >= 4 && IsDigit(r[0]) && r[|r| - 3] == '.'
    ensures AllDigits(r[..|r| - 3]) && AllDigits(r[|r| - 2..])
    ensures DigitsValue(r[..|r| - 3]) == cents / 100
    ensures DigitsValue(r[|r| - 2..]) == cents % 100
  {
    var whole := NatToString(cents / 100);
    var frac := TwoDigits(cents % 100);
    NatToStringValue(cents / 100);
    TwoDigitsValue(cents % 100);
    var r := whole + "." + frac;
    assert r[..|r| - 3] == whole;
    assert r[|r| - 2..] == frac;
    r
  }

  /** Digits with a comma between every group of three, as en-US prints them. */
  function Grouped(n: nat): (r: string)
    ensures |r| > 0 && IsDigit(r[0])
    decreases n
  {
    if n < 1000 then NatToString(n)
    else Grouped(n / 1000) + "," + TwoDigits(n % 1000 / 10)[..1] + TwoDigits(n % 100)
  }

  /** `new Intl.NumberFormat('en-US', {style: 'currency', currency: 'USD'}).format(x)`
      for an amount of `cents` hundredths: "$1,234.50". */
  function FormatUsd(cents: nat): (r: string)
    ensures |r| > 1 && r[0] == '$' && IsDigit(r[1])
  {
    "$" + Grouped(cents / 100) + "." + TwoDigits(cents % 100)
  }
}
