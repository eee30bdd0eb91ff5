/**
 * The few JavaScript string operations the components rely on:
 * `Number.prototype.toString` on integers, `String.prototype.padStart(2, '0')`,
 * splitting on a separator, and `parseInt` without a radix (decimal, or
 * hexadecimal after a `0x` prefix).
 */
module Text {

  predicate IsDigit(c: char) {
    '0' <= c <= '9'
  }

  predicate AllDigits(s: string) {
    forall i :: 0 <= i < |s| ==> IsDigit(s[i])
  }

  /** A decimal numeral without superfluous leading zeros ("0", "7", "42", never "07"). */
  predicate Canonical(s: string) {
    |s| >= 1 && AllDigits(s) && (s[0] == '0' ==> |s| == 1)
  }

  function DigitChar(d: nat): (c: char)
    requires d < 10
    ensures IsDigit(c)
  {
    (('0' as int) + d) as char
  }

  function DigitValue(c: char): (d: nat)
    requires IsDigit(c)
    ensures d < 10 && DigitChar(d) == c
  {
    (c as int) - ('0' as int)
  }

  /** The decimal numeral of a natural number, as `n.toString()` prints it. */
  function NatToString(n: nat): (s: string)
    ensures |s| >= 1 && AllDigits(s)
  {
    if n < 10 then [DigitChar(n)] else NatToString(n / 10) + [DigitChar(n % 10)]
  }

  /** The value of a string of decimal digits (0 for the empty string). */
  function DigitsValue(s: string): nat
    requires AllDigits(s)
  {
    if s == [] then 0 else DigitsValue(s[..|s| - 1]) * 10 + DigitValue(s[|s| - 1])
  }

  lemma {:induction false} DigitsValueOfNatToString(n: nat)
    ensures DigitsValue(NatToString(n)) == n
  {
    if n >= 10 {
      var s := NatToString(n);
      assert s[..|s| - 1] == NatToString(n / 10);
      DigitsValueOfNatToString(n / 10);
    }
  }

  lemma {:induction false} NatToStringCanonical(n: nat)
    ensures Canonical(NatToString(n))
    ensures n >= 1 ==> NatToString(n)[0] != '0'
  {
    if n >= 10 {
      NatToStringCanonical(n / 10);
    }
  }

  /** `i.toString()` for an integer: a minus sign, then the numeral of the magnitude. */
  function IntToString(i: int): (s: string)
    ensures |s| >= 1
    ensures i >= 0 ==> s == NatToString(i)
  {
    if i < 0 then "-" + NatToString(-i) else NatToString(i)
  }

  /** `s.padStart(2, '0')`: zeros on the left up to length two; longer strings unchanged. */
  function PadStart2(s: string): (r: string)
    ensures |s| >= 2 ==> r == s
    ensures |s| < 2 ==> |r| == 2 && r[2 - |s|..] == s && forall i :: 0 <= i < 2 - |s| ==> r[i] == '0'
  {
    if |s| == 0 then "00" else if |s| == 1 then "0" + s else s
  }

  /** `s.split(sep)`: the pieces between occurrences of `sep`, always at least one. */
  function Split(s: string, sep: char): (pieces: seq<string>)
    ensures |pieces| >= 1
    decreases |s|
  {
    if |s| == 0 then [""]
    else if s[0] == sep then [""] + Split(s[1..], sep)
    else
      var rest := Split(s[1..], sep);
      [[s[0]] + rest[0]] + rest[1..]
  }

  lemma {:induction false} SplitWithoutSeparator(a: string, sep: char)
    requires sep !in a
    ensures Split(a, sep) == [a]
  {
    if |a| > 0 {
      assert sep !in a[1..] by {
        forall i | 0 <= i < |a[1..]| ensures a[1..][i] != sep { assert a[1..][i] == a[i + 1]; }
      }
      SplitWithoutSeparator(a[1..], sep);
      assert [a[0]] + a[1..] == a;
    }
  }

  lemma {:induction false} SplitAtFirstSeparator(a: string, sep: char, b: string)
    requires sep !in a
    ensures Split(a + [sep] + b, sep) == [a] + Split(b, sep)
  {
    var s := a + [sep] + b;
    if |a| == 0 {
      assert s[1..] == b;
    } else {
      assert s[1..] == a[1..] + [sep] + b;
      assert sep !in a[1..] by {
        forall i | 0 <= i < |a[1..]| ensures a[1..][i] != sep { assert a[1..][i] == a[i + 1]; }
      }
      SplitAtFirstSeparator(a[1..], sep, b);
      assert [a[0]] + a[1..] == a;
    }
  }

  lemma {:induction false} DigitsHaveNoColon(s: string)
    requires AllDigits(s)
    ensures ':' !in s
  {
    assert forall i :: 0 <= i < |s| ==> s[i] != ':';
  }

  /** A JavaScript number as `parseInt` can return it: an integer or NaN. */
  datatype JsNumber = Finite(value: int) | NaN

  /** The whitespace `parseInt` skips before the numeral (its ASCII part). */
  predicate IsSpace(c: char) {
    c == ' ' || c == '\t' || c == '\n' || c == '\r' || c == '\U{000B}' || c == '\U{000C}'
  }

  function TrimStart(s: string): (t: string)
    ensures |t| <= |s| && t == s[|s| - |t|..]
    ensures |t| > 0 ==> !IsSpace(t[0])
  {
    if |s| > 0 && IsSpace(s[0]) then TrimStart(s[1..]) else s
  }

  /** The longest prefix of `s` made of decimal digits. */
  function LeadingDigits(s: string): (d: string)
    ensures AllDigits(d) && d <= s
    ensures |d| < |s| ==> !IsDigit(s[|d|])
  {
    if |s| > 0 && IsDigit(s[0]) then [s[0]] + LeadingDigits(s[1..]) else []
  }

  predicate IsHexDigit(c: char) {
    IsDigit(c) || 'a' <= c <= 'f' || 'A' <= c <= 'F'
  }

  predicate AllHexDigits(s: string) {
    forall i :: 0 <= i < |s| ==> IsHexDigit(s[i])
  }

  function HexDigitValue(c: char): (d: nat)
    requires IsHexDigit(c)
    ensures d < 16
    ensures IsDigit(c) ==> d == DigitValue(c)
  {
    if IsDigit(c) then DigitValue(c)
    else if 'a' <= c <= 'f' then (c as int) - ('a' as int) + 10
    else (c as int) - ('A' as int) + 10
  }

  /** The value of a string of hexadecimal digits (0 for the empty string). */
  function HexValue(s: string): nat
    requires AllHexDigits(s)
  {
    if s == [] then 0 else HexValue(s[..|s| - 1]) * 16 + HexDigitValue(s[|s| - 1])
  }

  /** The longest prefix of `s` made of hexadecimal digits. */
  function LeadingHexDigits(s: string): (d: string)
    ensures AllHexDigits(d) && d <= s
    ensures |d| < |s| ==> !IsHexDigit(s[|d|])
  {
    if |s| > 0 && IsHexDigit(s[0]) then [s[0]] + LeadingHexDigits(s[1..]) else []
  }

  /** The text after leading whitespace and at most one sign. */
  function NumeralBody(s: string): (body: string)
    ensures |body| <= |s|
  {
    var t := TrimStart(s);
    if |t| > 0 && (t[0] == '-' || t[0] == '+') then t[1..] else t
  }

  /** Without a radix, `0x` or `0X` selects base 16. */
  predicate HasHexPrefix(body: string) {
    |body| >= 2 && body[0] == '0' && (body[1] == 'x' || body[1] == 'X')
  }

  /** The unsigned value of the numeral at the start of `body`, or NaN when no digit follows. */
  function Magnitude(body: string): JsNumber
  {
    if HasHexPrefix(body) then
      var digits := LeadingHexDigits(body[2..]);
      if digits == [] then NaN else Finite(HexValue(digits))
    else
      var digits := LeadingDigits(body);
      if digits == [] then NaN else Finite(DigitsValue(digits))
  }

  /**
   * `parseInt(s)` without a radix: skip leading whitespace, read an optional
   * sign, then a hexadecimal numeral after `0x`/`0X` or else a decimal one,
   * as many digits as follow; no digit at all gives NaN.
   */
  function ParseInt(s: string): JsNumber
  {
    var t := TrimStart(s);
    var negative := |t| > 0 && t[0] == '-';
    var m := Magnitude(NumeralBody(s));
    if m.NaN? then NaN
    else if negative then Finite(-m.value)
    else m
  }

  lemma {:induction false} LeadingDigitsOfDigits(s: string)
    requires AllDigits(s)
    ensures LeadingDigits(s) == s
  {
    if |s| > 0 {
      LeadingDigitsOfDigits(s[1..]);
    }
  }

  /** Reading back a numeral that `toString` printed gives the number again. */
  lemma {:induction false} ParseIntOfNatToString(n: nat)
    ensures ParseInt(NatToString(n)) == Finite(n)
  {
    var s := NatToString(n);
    assert !IsSpace(s[0]) && s[0] != '-' && s[0] != '+' by { assert IsDigit(s[0]); }
    assert TrimStart(s) == s;
    assert NumeralBody(s) == s;
    assert !HasHexPrefix(s) by {
      if |s| >= 2 { assert IsDigit(s[1]); }
    }
    LeadingDigitsOfDigits(s);
    DigitsValueOfNatToString(n);
  }

  /**
   * Text whose first character after leading whitespace and at most one
   * sign is not a decimal digit is not a number.
   */
  lemma {:induction false} ParseIntWithoutDigits(s: string)
    requires LeadingDigits(NumeralBody(s)) == []
    ensures ParseInt(s) == NaN
  {
    var body := NumeralBody(s);
    assert !HasHexPrefix(body) by {
      if |body| > 0 { assert !IsDigit(body[0]); }
    }
  }

  lemma {:induction false} LeadingHexDigitsOfHexDigits(s: string)
    requires AllHexDigits(s)
    ensures LeadingHexDigits(s) == s
  {
    if |s| > 0 {
      LeadingHexDigitsOfHexDigits(s[1..]);
    }
  }

  /** `0x` or `0X` followed by hexadecimal digits reads in base 16; with no digit it is NaN. */
  lemma {:induction false} ParseIntOfHexDigits(x: char, h: string)
    requires (x == 'x' || x == 'X') && AllHexDigits(h)
    ensures ParseInt(['0', x] + h) == if h == [] then NaN else Finite(HexValue(h))
  {
    var s := ['0', x] + h;
    assert TrimStart(s) == s;
    assert NumeralBody(s) == s;
    assert HasHexPrefix(s);
    assert s[2..] == h;
    LeadingHexDigitsOfHexDigits(h);
  }

  /** Reps typed as `0x1F` are stored as 31. */
  lemma {:induction false} ParseIntHexExample()
    ensures ParseInt("0x1F") == Finite(31)
  {
    var h := ['1', 'F'];
    assert "0x1F" == ['0', 'x'] + h;
    ParseIntOfHexDigits('x', h);
    HexValueExample();
  }

  lemma {:induction false} HexValueExample()
    ensures HexValue(['1', 'F']) == 31
  {
    assert ['1', 'F'][..1] == ['1'];
    assert ['1'][..0] == [];
  }
}
