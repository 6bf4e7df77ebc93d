/**
 * The parts of JavaScript's string handling that the booking components rely on:
 * white space as `String.prototype.trim` and the regex class `\s` see it,
 * `split` on a one-character separator, `Number` on plain digit strings and
 * `toFixed(2)` on an amount held in whole cents.
 */
module JsText {

  /** WhiteSpace and LineTerminator code points of ECMA-262: what `trim` removes and `\s` matches. */
  predicate IsSpace(c: char) {
    || c == '\t' || c == '\n' || c == '\U{000B}' || c == '\U{000C}' || c == '\r'
    || c == ' ' || c == '\U{00A0}' || c == '\U{1680}'
    || ('\U{2000}' <= c <= '\U{200A}')
    || c == '\U{2028}' || c == '\U{2029}' || c == '\U{202F}' || c == '\U{205F}'
    || c == '\U{3000}' || c == '\U{FEFF}'
  }

  /** Every character of `s` is white space (the empty string included). */
  predicate IsBlank(s: string) {
    forall i :: 0 <= i < |s| ==> IsSpace(s[i])
  }

  /** `s.trimStart()`: drops the leading white space and nothing else. */
  function TrimStart(s: string): (r: string)
    ensures |r| <= |s| && r == s[|s| - |r|..]
    ensures IsBlank(s[..|s| - |r|])
    ensures r == [] || !IsSpace(r[0])
  {
    if s != [] && IsSpace(s[0]) then TrimStart(s[1..]) else s
  }

  /** `s.trimEnd()`: drops the trailing white space and nothing else. */
  function TrimEnd(s: string): (r: string)
    ensures |r| <= |s| && r == s[..|r|]
    ensures IsBlank(s[|r|..])
    ensures r == [] || !IsSpace(r[|r| - 1])
  {
    if s != [] && IsSpace(s[|s| - 1]) then TrimEnd(s[..|s| - 1]) else s
  }

  /**
   * `s.trim()`. The components test `!s.trim()`: the trimmed string is empty
   * exactly when `s` is all white space.
   */
  function Trim(s: string): (r: string)
    ensures r == [] <==> IsBlank(s)
    ensures r != [] ==> !IsSpace(r[0]) && !IsSpace(r[|r| - 1])
  {
    TrimEnd(TrimStart(s))
  }

  /** `s.split(sep)` for a one-character separator: the pieces between the separators, at least one. */
  function Split(s: string, sep: char): (r: seq<string>)
    ensures |r| >= 1 && r[0] <= s
    ensures forall i :: 0 <= i < |r| ==> sep !in r[i]
  {
    if s == [] then [[]]
    else
      var rest := Split(s[1..], sep);
      if s[0] == sep then [[]] + rest
      else [[s[0]] + rest[0]] + rest[1..]
  }

  /** `parts.join(sep)`, the partner of Split. */
  function Join(parts: seq<string>, sep: char): string
  {
    if parts == [] then []
    else if |parts| == 1 then parts[0]
    else parts[0] + [sep] + Join(parts[1..], sep)
  }

  /** Splitting loses nothing: joining the pieces again gives back the string. */
  lemma {:induction false} JoinSplit(s: string, sep: char)
    ensures Join(Split(s, sep), sep) == s
  {
    if s != [] {
      var rest := Split(s[1..], sep);
      JoinSplit(s[1..], sep);
      if s[0] == sep {
        assert Split(s, sep) == [[]] + rest;
        assert ([[]] + rest)[1..] == rest;
      } else {
        var r := Split(s, sep);
        assert r[0] == [s[0]] + rest[0];
        if |rest| == 1 {
          assert Join(r, sep) == [s[0]] + rest[0];
        } else {
          assert r[1..] == rest[1..];
          assert Join(rest, sep) == rest[0] + [sep] + Join(rest[1..], sep);
        }
      }
    }
  }

  /** Splitting a join of separator-free pieces gives back the pieces. */
  lemma {:induction false} SplitJoin(parts: seq<string>, sep: char)
    requires |parts| >= 1
    requires forall i :: 0 <= i < |parts| ==> sep !in parts[i]
    ensures Split(Join(parts, sep), sep) == parts
  {
    if |parts| == 1 {
      SplitPiece(parts[0], sep);
    } else {
      SplitJoin(parts[1..], sep);
      SplitPrefix(parts[0], sep, Join(parts[1..], sep));
      assert Join(parts, sep) == parts[0] + ([sep] + Join(parts[1..], sep));
      assert [parts[0]] + parts[1..] == parts;
    }
  }

  /** A separator-free string splits into itself. */
  lemma {:induction false} SplitPiece(p: string, sep: char)
    requires sep !in p
    ensures Split(p, sep) == [p]
  {
    if p != [] {
      SplitPiece(p[1..], sep);
      assert [p[0]] + p[1..] == p;
    }
  }

  /** A separator-free prefix followed by a separator becomes the first piece. */
  lemma {:induction false} SplitPrefix(p: string, sep: char, tail: string)
    requires sep !in p
    ensures Split(p + [sep] + tail, sep) == [p] + Split(tail, sep)
  {
    if p == [] {
      assert p + [sep] + tail == [sep] + tail;
      assert ([sep] + tail)[1..] == tail;
    } else {
      var s := p + [sep] + tail;
      assert s[1..] == p[1..] + [sep] + tail;
      SplitPrefix(p[1..], sep, tail);
      assert [p[0]] + p[1..] == p;
    }
  }

  predicate IsDigit(c: char) {
    '0' <= c <= '9'
  }

  predicate AllDigits(s: string) {
    forall i :: 0 <= i < |s| ==> IsDigit(s[i])
  }

  function DigitChar(d: nat): (c: char)
    requires d < 10
    ensures IsDigit(c)
  {
    ['0', '1', '2', '3', '4', '5', '6', '7', '8', '9'][d]
  }

  function DigitValue(c: char): (d: nat)
    requires IsDigit(c)
    ensures d < 10 && DigitChar(d) == c
  {
    (c as int - '0' as int) as nat
  }

  /** The decimal notation of a non-negative integer, as `String(n)` writes it. */
  function NatToDecimal(n: nat): (r: string)
    ensures |r| >= 1 && AllDigits(r)
    ensures r[0] == '0' ==> n == 0
  {
    if n < 10 then [DigitChar(n)] else NatToDecimal(n / 10) + [DigitChar(n % 10)]
  }

  /** The value of a string of decimal digits; the empty string is 0. */
  function DecimalToNat(s: string): nat
    requires AllDigits(s)
  {
    if s == [] then 0 else DecimalToNat(s[..|s| - 1]) * 10 + DigitValue(s[|s| - 1])
  }

  /** Reading back what NatToDecimal writes gives the number. */
  lemma {:induction false} DecimalRoundTrip(n: nat)
    ensures DecimalToNat(NatToDecimal(n)) == n
  {
    if n >= 10 {
      DecimalRoundTrip(n / 10);
      var s := NatToDecimal(n);
      assert s[..|s| - 1] == NatToDecimal(n / 10);
    }
  }

  /** Writing back what DecimalToNat reads gives the string, for digit strings without a leading zero. */
  lemma {:induction false} DecimalRoundTripString(s: string)
    requires |s| >= 1 && AllDigits(s)
    requires s[0] == '0' ==> |s| == 1
    ensures NatToDecimal(DecimalToNat(s)) == s
  {
    if |s| > 1 {
      var p := s[..|s| - 1];
      var d := DigitValue(s[|s| - 1]);
      DecimalRoundTripString(p);
      DecimalPositive(p);
      var n := DecimalToNat(s);
      assert n == DecimalToNat(p) * 10 + d;
      assert n / 10 == DecimalToNat(p) && n % 10 == d;
      assert p + [s[|s| - 1]] == s;
    }
  }

  /** A digit string that does not start with '0' has a positive value. */
  lemma {:induction false} DecimalPositive(s: string)
    requires |s| >= 1 && AllDigits(s) && s[0] != '0'
    ensures DecimalToNat(s) >= 1
  {
    if |s| > 1 {
      DecimalPositive(s[..|s| - 1]);
    }
  }

  /** The written form of a number below 10^width has at most `width` digits. */
  lemma {:induction false} DecimalWidth(n: nat, width: nat)
    requires 1 <= width && n < Pow10(width)
    ensures |NatToDecimal(n)| <= width
  {
    if n >= 10 {
      DecimalWidth(n / 10, width - 1);
    }
  }

  function Pow10(k: nat): (r: nat)
    ensures r >= 1
  {
    if k == 0 then 1 else 10 * Pow10(k - 1)
  }

  /** `String(n).padStart(width, '0')`, as Date's ISO formatting writes its fields. */
  function ZeroPad(n: nat, width: nat): (r: string)
    ensures AllDigits(r) && |r| >= width
    ensures width >= 1 && n < Pow10(width) ==> |r| == width
    ensures DecimalToNat(r) == n
  {
    var digits := NatToDecimal(n);
    DecimalRoundTrip(n);
    assert width >= 1 && n < Pow10(width) ==> |digits| <= width by {
      if width >= 1 && n < Pow10(width) { DecimalWidth(n, width); }
    }
    if |digits| >= width then digits else LeadingZeros(width - |digits|, digits)
  }

  /** `k` zeros in front of `digits`, which leave its value alone. */
  function LeadingZeros(k: nat, digits: string): (r: string)
    requires AllDigits(digits)
    ensures |r| == k + |digits| && AllDigits(r)
    ensures DecimalToNat(r) == DecimalToNat(digits)
  {
    if k == 0 then digits
    else
      var r := LeadingZeros(k - 1, digits);
      ZeroPrefixValue(r);
      ['0'] + r
  }

  /** A leading '0' does not change the value of a digit string. */
  lemma {:induction false} ZeroPrefixValue(s: string)
    requires AllDigits(s)
    ensures DecimalToNat(['0'] + s) == DecimalToNat(s)
  {
    if s != [] {
      var t := ['0'] + s;
      assert t[..|t| - 1] == ['0'] + s[..|s| - 1];
      ZeroPrefixValue(s[..|s| - 1]);
    }
  }

  /** `String(n)` for an integer-valued number: its digits, after a '-' when negative. */
  function IntToString(n: int): (r: string)
    ensures n >= 0 ==> AllDigits(r) && r != [] && DecimalToNat(r) == n
    ensures n < 0 ==> |r| >= 2 && r[0] == '-' && AllDigits(r[1..]) && DecimalToNat(r[1..]) == -n
  {
    if n < 0 then
      DecimalRoundTrip(-n);
      var r := "-" + NatToDecimal(-n);
      assert r[1..] == NatToDecimal(-n);
      r
    else
      DecimalRoundTrip(n);
      NatToDecimal(n)
  }

  /** JavaScript `Number(s)` restricted to what the model computes. */
  datatype Numeral = Int(n: nat) | Unparsed

  /**
   * `Number(s)`: white space around the digits is ignored and a blank string is 0.
   * A string of plain decimal digits gives its value; every other form (sign, fraction,
   * exponent, hexadecimal, "Infinity", NaN) is `Unparsed`.
   */
  function ToNumber(s: string): (r: Numeral)
    ensures IsBlank(s) ==> r == Int(0)
    ensures AllDigits(s) && s != [] ==> r == Int(DecimalToNat(s))
  {
    var t := Trim(s);
    if t == [] then Int(0)
    else if AllDigits(t) then
      assert AllDigits(s) ==> t == s by {
        if AllDigits(s) {
          TrimOfDigits(s);
        }
      }
      Int(DecimalToNat(t))
    else Unparsed
  }

  /** Digits are not white space, so trimming a digit string leaves it alone. */
  lemma TrimOfDigits(s: string)
    requires AllDigits(s)
    ensures Trim(s) == s
  {
  }

  /** `(cents / 100).toFixed(2)` for an amount held exactly in cents. */
  function FormatCents(cents: int): (r: string)
    ensures |r| >= 4 && r[|r| - 3] == '.'
  {
    if cents < 0 then "-" + UnsignedCents(-cents) else UnsignedCents(cents)
  }

  function UnsignedCents(cents: nat): (r: string)
    ensures |r| >= 4 && r[|r| - 3] == '.'
    ensures AllDigits(r[..|r| - 3]) && AllDigits(r[|r| - 2..])
    ensures r[0] != '-'
  {
    var whole := NatToDecimal(cents / 100);
    var fraction := ZeroPad(cents % 100, 2);
    var r := whole + "." + fraction;
    assert r[..|r| - 3] == whole && r[|r| - 2..] == fraction;
    r
  }

  /** Reads an amount written as FormatCents writes it back into cents. */
  function ParseCents(s: string): int
    requires |s| >= 4 && s[|s| - 3] == '.'
    requires s[0] == '-' ==> |s| >= 5
  {
    var signed := s[0] == '-';
    var body := if signed then s[1..] else s;
    var whole := body[..|body| - 3];
    var fraction := body[|body| - 2..];
    if AllDigits(whole) && AllDigits(fraction) then
      var magnitude := DecimalToNat(whole) * 100 + DecimalToNat(fraction);
      if signed then -magnitude else magnitude
    else 0
  }

  /** The displayed amount is exact: reading it back gives the cents it was made from. */
  lemma FormatCentsRoundTrip(cents: int)
    ensures var s := FormatCents(cents); (s[0] == '-' ==> |s| >= 5) && ParseCents(s) == cents
  {
    var m := if cents < 0 then -cents else cents;
    var u := UnsignedCents(m);
    var whole := NatToDecimal(m / 100);
    var fraction := ZeroPad(m % 100, 2);
    assert u == whole + "." + fraction;
    assert u[..|u| - 3] == whole;
    assert u[|u| - 2..] == fraction;
    DecimalRoundTrip(m / 100);
    var s := FormatCents(cents);
    if cents < 0 {
      assert s[1..] == u;
    } else {
      assert s == u;
    }
  }
}
