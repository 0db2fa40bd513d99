/** The JavaScript string built-ins the tracker leans on, stated on `seq<char>`:
    `String.prototype.trim`, `parseInt(s)` without a radix, `Number.prototype.toString()`
    on integers and `String.prototype.padStart`. */
module Text {
  import opened Types

  /** The WhiteSpace and LineTerminator code points of ECMAScript, which `trim` removes
      and `parseInt` skips. */
  predicate IsJsSpace(c: char) {
    || c == '\t' || c == '\n' || c == '\U{B}' || c == '\U{C}' || c == '\r' || c == ' '
    || c == '\U{A0}' || c == '\U{1680}' || ('\U{2000}' <= c <= '\U{200A}')
    || c == '\U{2028}' || c == '\U{2029}' || c == '\U{202F}' || c == '\U{205F}'
    || c == '\U{3000}' || c == '\U{FEFF}'
  }

  /** Every character is white space: `!s.trim()` in the source. */
  predicate Blank(s: string) {
    forall i :: 0 <= i < |s| ==> IsJsSpace(s[i])
  }

  function TrimStart(s: string): (r: string)
    ensures |r| <= |s| && r == s[|s| - |r|..]
    ensures r == [] || !IsJsSpace(r[0])
  {
    if s != [] && IsJsSpace(s[0]) then TrimStart(s[1..]) else s
  }

  function TrimEnd(s: string): (r: string)
    ensures |r| <= |s| && r == s[..|r|]
    ensures r == [] || !IsJsSpace(r[|r| - 1])
  {
    if s != [] && IsJsSpace(s[|s| - 1]) then TrimEnd(s[..|s| - 1]) else s
  }

  function Trim(s: string): string {
    TrimEnd(TrimStart(s))
  }

  /** `trim` leaves nothing exactly when the text is all white space. */
  lemma {:induction false} TrimEmptyIffBlank(s: string)
    ensures Trim(s) == "" <==> Blank(s)
  {
    if s != [] {
      if IsJsSpace(s[0]) {
        TrimEmptyIffBlank(s[1..]);
        if Blank(s[1..]) {
          assert forall i :: 1 <= i < |s| ==> s[i] == s[1..][i - 1];
        }
      } else {
        assert TrimStart(s) == s;
        assert TrimEnd(s) != "" by {
          if TrimEnd(s) == "" {
            NonSpaceSurvivesTrimEnd(s, 0);
          }
        }
      }
    }
  }

  /** A non-space character keeps `TrimEnd` from removing anything at or before it. */
  lemma {:induction false} NonSpaceSurvivesTrimEnd(s: string, k: nat)
    requires k < |s| && !IsJsSpace(s[k])
    ensures |TrimEnd(s)| > k
  {
    if IsJsSpace(s[|s| - 1]) {
      NonSpaceSurvivesTrimEnd(s[..|s| - 1], k);
    }
  }

  /** JavaScript's `a % b`, which truncates toward zero, for a positive divisor. */
  function JsRem(a: int, b: int): (r: int)
    requires b > 0
    ensures -b < r < b
    ensures a >= 0 ==> 0 <= r && r == a % b
    ensures a <= 0 ==> r <= 0 && r == -((-a) % b)
  {
    if a >= 0 then a % b else -((-a) % b)
  }

  /** The value of a digit in bases up to 16, or -1 for anything else. */
  function DigitOf(c: char): int {
    if '0' <= c <= '9' then c as int - '0' as int
    else if 'a' <= c <= 'f' then c as int - 'a' as int + 10
    else if 'A' <= c <= 'F' then c as int - 'A' as int + 10
    else -1
  }

  predicate IsDigit(c: char, radix: nat) {
    0 <= DigitOf(c) < radix
  }

  predicate AllDigits(s: string, radix: nat) {
    forall i :: 0 <= i < |s| ==> IsDigit(s[i], radix)
  }

  lemma DigitNotSpace(c: char)
    requires IsDigit(c, 10)
    ensures !IsJsSpace(c)
  {
  }

  /** Length of the longest prefix made of digits of `radix`. */
  function DigitRun(s: string, radix: nat): (n: nat)
    ensures n <= |s| && AllDigits(s[..n], radix)
    ensures n == |s| || !IsDigit(s[n], radix)
  {
    if s != [] && IsDigit(s[0], radix) then
      var n := 1 + DigitRun(s[1..], radix);
      assert forall i :: 1 <= i < n ==> s[..n][i] == s[1..][..n - 1][i - 1];
      n
    else 0
  }

  /** The number an all-digit string denotes, read left to right. */
  function Value(s: string, radix: nat): nat
    requires AllDigits(s, radix)
  {
    if s == [] then 0 else Value(s[..|s| - 1], radix) * radix + DigitOf(s[|s| - 1])
  }

  /** `parseInt(s)` with no radix: skip leading white space, take one optional sign,
      switch to base 16 after a `0x`/`0X` prefix, then read the longest run of digits;
      `None` is NaN (no digit at all). The source stores the result in a JavaScript
      number and only compares it with 0 and 240, so no rounding is modelled. */
  function ParseInt(s: string): Option<int> {
    ParseSigned(TrimStart(s))
  }

  /** `parseInt` once the leading white space is gone. */
  function ParseSigned(t: string): Option<int> {
    var negative := t != [] && t[0] == '-';
    var u := if t != [] && (t[0] == '-' || t[0] == '+') then t[1..] else t;
    var magnitude := UnsignedPrefix(u);
    if magnitude.None? then None
    else
      var m: int := magnitude.value;
      Some(if negative then -m else m)
  }

  /** The digits `parseInt` reads after the sign: hexadecimal after `0x`/`0X`, else decimal. */
  function UnsignedPrefix(u: string): Option<nat> {
    var hex := |u| >= 2 && u[0] == '0' && (u[1] == 'x' || u[1] == 'X');
    var radix := if hex then 16 else 10;
    var v := if hex then u[2..] else u;
    var n := DigitRun(v, radix);
    if n == 0 then None else Some(Value(v[..n], radix))
  }

  function DigitChar(d: nat): (c: char)
    requires d < 10
    ensures '0' <= c <= '9' && DigitOf(c) == d
  {
    ('0' as int + d) as char
  }

  /** Decimal text of a natural number, as `toString()` writes it. */
  function NatToString(n: nat): (s: string)
    ensures 1 <= |s|
    ensures AllDigits(s, 10)
  {
    if n < 10 then [DigitChar(n)]
    else
      var s := NatToString(n / 10) + [DigitChar(n % 10)];
      assert forall i :: 0 <= i < |s| - 1 ==> s[i] == NatToString(n / 10)[i];
      s
  }

  /** Decimal text of an integer, as `String(n)` or a template literal writes it. */
  function IntToString(n: int): string {
    if n < 0 then "-" + NatToString(-n) else NatToString(n)
  }

  /** `s.padStart(len, fill)` for a one-character `fill`. */
  function PadStart(s: string, len: nat, fill: char): string {
    if |s| >= len then s else seq(len - |s|, _ => fill) + s
  }

  /** Reading back what `NatToString` wrote gives the number. */
  lemma {:induction false} ValueOfNatToString(n: nat)
    ensures Value(NatToString(n), 10) == n
  {
    if n >= 10 {
      var s := NatToString(n);
      assert s[..|s| - 1] == NatToString(n / 10);
      ValueOfNatToString(n / 10);
    }
  }

  /** A leading zero does not change the value of a digit string. */
  lemma {:induction false} LeadingZero(s: string)
    requires AllDigits(s, 10)
    ensures AllDigits("0" + s, 10) && Value("0" + s, 10) == Value(s, 10)
  {
    assert forall i :: 1 <= i < |"0" + s| ==> ("0" + s)[i] == s[i - 1];
    if s != [] {
      assert ("0" + s)[..|s|] == "0" + s[..|s| - 1];
      LeadingZero(s[..|s| - 1]);
    }
  }

  /** `parseInt` reads a non-empty decimal digit string as its value. */
  lemma ParseDigits(s: string)
    requires s != [] && AllDigits(s, 10)
    ensures ParseInt(s) == Some(Value(s, 10))
  {
    assert IsDigit(s[0], 10);
    if |s| >= 2 {
      assert IsDigit(s[1], 10);
    }
    ParseDecimal(s);
    AllDigitsRun(s, 10);
    assert s[..|s|] == s;
  }

  lemma {:induction false} AllDigitsRun(s: string, radix: nat)
    requires AllDigits(s, radix)
    ensures DigitRun(s, radix) == |s|
  {
    if s != [] {
      AllDigitsRun(s[1..], radix);
    }
  }

  /** `parseInt` undoes `toString` on natural numbers, and ignores whatever follows the
      digits as long as it does not continue them or turn them into a `0x` prefix. */
  lemma ParseNatPrefix(n: nat, rest: string)
    requires rest == [] || (!IsDigit(rest[0], 10) && rest[0] != 'x' && rest[0] != 'X')
    ensures ParseInt(NatToString(n) + rest) == Some(n)
  {
    var d := NatToString(n);
    var s := d + rest;
    assert s[0] == d[0];
    if |s| >= 2 {
      if |d| >= 2 { assert s[1] == d[1] && IsDigit(d[1], 10); } else { assert s[1] == rest[0]; }
    }
    ParseDecimal(s);
    DigitRunOfPrefix(d, rest);
    assert s[..|d|] == d;
    ValueOfNatToString(n);
  }

  /** Text that starts with a decimal digit, and not with `0x`, parses as base 10. */
  lemma ParseDecimal(s: string)
    requires s != [] && IsDigit(s[0], 10)
    requires |s| >= 2 && s[0] == '0' ==> s[1] != 'x' && s[1] != 'X'
    ensures ParseInt(s) == Some(Value(s[..DigitRun(s, 10)], 10))
  {
    assert !IsJsSpace(s[0]);
    assert TrimStart(s) == s;
    DecimalPrefix(s);
    Unsigned(s);
  }

  /** Without a sign `parseInt` reads what the digits give. */
  lemma Unsigned(t: string)
    requires t != [] && t[0] != '-' && t[0] != '+' && UnsignedPrefix(t).Some?
    ensures ParseSigned(t) == Some(UnsignedPrefix(t).value as int)
  {
  }

  lemma DecimalPrefix(s: string)
    requires s != [] && IsDigit(s[0], 10)
    requires |s| >= 2 && s[0] == '0' ==> s[1] != 'x' && s[1] != 'X'
    ensures UnsignedPrefix(s) == Some(Value(s[..DigitRun(s, 10)], 10))
  {
    assert DigitRun(s, 10) >= 1;
  }

  /** The digit run of a digit string followed by a non-digit is that digit string. */
  lemma {:induction false} DigitRunOfPrefix(d: string, rest: string)
    requires AllDigits(d, 10)
    requires rest == [] || !IsDigit(rest[0], 10)
    ensures DigitRun(d + rest, 10) == |d|
  {
    if d != [] {
      assert (d + rest)[1..] == d[1..] + rest;
      DigitRunOfPrefix(d[1..], rest);
    } else {
      assert d + rest == rest;
    }
  }

  lemma ParseNatToString(n: nat)
    ensures ParseInt(NatToString(n)) == Some(n)
  {
    ParseNatPrefix(n, "");
    assert NatToString(n) + "" == NatToString(n);
  }

  /** `toString().padStart(2, '0')` of a number below 100 is two digits that read back
      as the number. */
  lemma TwoDigits(n: nat)
    requires n < 100
    ensures |PadStart(NatToString(n), 2, '0')| == 2
    ensures ParseInt(PadStart(NatToString(n), 2, '0')) == Some(n)
  {
    var s := NatToString(n);
    if n < 10 {
      assert s == [DigitChar(n)];
      assert PadStart(s, 2, '0') == "0" + s;
      LeadingZero(s);
      ParseDigits("0" + s);
      ValueOfNatToString(n);
    } else {
      assert s == NatToString(n / 10) + [DigitChar(n % 10)];
      assert NatToString(n / 10) == [DigitChar(n / 10)];
      ParseNatToString(n);
    }
  }
}
