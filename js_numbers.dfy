/**
 * The global `parseInt(string)` of ECMAScript (ECMA-262, section 19.2.5),
 * called without a radix, as the form controller calls it. `NaN` is `None`;
 * a parsed number is a mathematical integer.
 */
module JsNumbers {
  import opened Wrappers

  /** StrWhiteSpaceChar of ECMA-262, section 7.1.4.1: WhiteSpace (section 12.2)
      and LineTerminator (section 12.3). */
  predicate IsStrWhiteSpace(ch: char) {
    var c := ch as int;
    || c == 0x09 || c == 0x0B || c == 0x0C || c == 0x20 || c == 0xA0 || c == 0xFEFF
    || c == 0x0A || c == 0x0D || c == 0x2028 || c == 0x2029
    // the remaining characters of Unicode category Zs
    || c == 0x1680 || (0x2000 <= c <= 0x200A) || c == 0x202F || c == 0x205F || c == 0x3000
  }

  /** The value of `ch` as a digit of radix up to 36 (`0`-`9`, then `a`-`z`
      or `A`-`Z`); 36 for a character that is a digit in no such radix. */
  function DigitValue(ch: char): (v: nat)
    ensures v <= 36
  {
    if '0' <= ch <= '9' then ch as int - '0' as int
    else if 'a' <= ch <= 'z' then ch as int - 'a' as int + 10
    else if 'A' <= ch <= 'Z' then ch as int - 'A' as int + 10
    else 36
  }

  predicate IsDigit(ch: char, radix: nat) {
    DigitValue(ch) < radix
  }

  /** The string without its leading white space (step 2 of parseInt). */
  function TrimStart(s: string): (r: string)
    ensures |r| <= |s| && r == s[|s| - |r|..]
    ensures forall i :: 0 <= i < |s| - |r| ==> IsStrWhiteSpace(s[i])
    ensures r == [] || !IsStrWhiteSpace(r[0])
    decreases |s|
  {
    if s != [] && IsStrWhiteSpace(s[0]) then TrimStart(s[1..]) else s
  }

  /** The longest prefix of `s` made of digits of `radix` (step 11). */
  function DigitRun(s: string, radix: nat): (z: string)
    ensures |z| <= |s| && z == s[..|z|]
    ensures forall i :: 0 <= i < |z| ==> IsDigit(z[i], radix)
    ensures |z| == |s| || !IsDigit(s[|z|], radix)
    decreases |s|
  {
    if s != [] && IsDigit(s[0], radix) then [s[0]] + DigitRun(s[1..], radix) else []
  }

  /** The mathematical value of a digit string, most significant digit first. */
  function DigitsValue(z: string, radix: nat): nat
    decreases |z|
  {
    if z == [] then 0 else DigitsValue(z[..|z| - 1], radix) * radix + DigitValue(z[|z| - 1])
  }

  /** `parseInt(input)`: skip leading white space, take an optional sign, switch
      to radix 16 on a `0x` or `0X` prefix, then read the longest run of digits;
      `NaN` when that run is empty. */
  function ParseInt(input: string): Option<int> {
    ParseSigned(TrimStart(input))
  }

  /** Steps 4 to 6 and 16: an optional `-` or `+`, then an unsigned numeral. */
  function ParseSigned(s: string): Option<int> {
    if s != [] && s[0] == '-' then
      match ParseUnsigned(s[1..])
      case None => None
      case Some(n) => Some(-(n as int))
    else if s != [] && s[0] == '+' then ParseUnsigned(s[1..])
    else ParseUnsigned(s)
  }

  predicate HasHexPrefix(u: string) {
    |u| >= 2 && u[0] == '0' && (u[1] == 'x' || u[1] == 'X')
  }

  /** Steps 8 to 15 for a radix left undefined: radix 10 unless `0x`/`0X`. */
  function ParseUnsigned(u: string): Option<nat> {
    if HasHexPrefix(u) then ParseDigits(u[2..], 16) else ParseDigits(u, 10)
  }

  function ParseDigits(s: string, radix: nat): Option<nat> {
    var z := DigitRun(s, radix);
    if z == [] then None else Some(DigitsValue(z, radix))
  }

  function DecimalDigit(n: nat): (ch: char)
    requires n < 10
    ensures IsDigit(ch, 10) && DigitValue(ch) == n
  {
    ('0' as int + n) as char
  }

  /** The canonical decimal numeral of `n`: no sign, no leading zero. */
  function DecimalString(n: nat): (d: string)
    ensures |d| >= 1
    ensures forall i :: 0 <= i < |d| ==> IsDigit(d[i], 10)
    ensures d[0] == '0' <==> n == 0
    ensures DigitsValue(d, 10) == n
    decreases n
  {
    if n < 10 then [DecimalDigit(n)]
    else
      var high := DecimalString(n / 10);
      var d := high + [DecimalDigit(n % 10)];
      assert d[..|d| - 1] == high;
      d
  }

  /** What `String(i)` gives for an integer `i`. */
  function IntString(i: int): string {
    if i < 0 then "-" + DecimalString(-i) else DecimalString(i)
  }

  lemma {:induction false} DigitRunOfDigits(d: string, t: string, radix: nat)
    requires forall i :: 0 <= i < |d| ==> IsDigit(d[i], radix)
    requires t == [] || !IsDigit(t[0], radix)
    ensures DigitRun(d + t, radix) == d
    decreases |d|
  {
    if d != [] {
      assert (d + t)[1..] == d[1..] + t;
      DigitRunOfDigits(d[1..], t, radix);
    } else {
      assert d + t == t;
    }
  }

  /** A string that does not start with white space is its own trimming. */
  lemma TrimStartNoWhiteSpace(s: string)
    requires s == [] || !IsStrWhiteSpace(s[0])
    ensures TrimStart(s) == s
  {
  }

  /** Leading white space does not change the result of parseInt. */
  lemma {:induction false} TrimStartSkips(ws: string, s: string)
    requires forall i :: 0 <= i < |ws| ==> IsStrWhiteSpace(ws[i])
    ensures TrimStart(ws + s) == TrimStart(s)
    decreases |ws|
  {
    if ws != [] {
      assert (ws + s)[1..] == ws[1..] + s;
      TrimStartSkips(ws[1..], s);
    } else {
      assert ws + s == s;
    }
  }

  lemma ParseIntSkipsLeadingWhiteSpace(ws: string, s: string)
    requires forall i :: 0 <= i < |ws| ==> IsStrWhiteSpace(ws[i])
    ensures ParseInt(ws + s) == ParseInt(s)
  {
    TrimStartSkips(ws, s);
  }

  lemma ParseUnsignedOfNumeral(n: nat, t: string)
    requires t == [] || !IsDigit(t[0], 10)
    requires n == 0 && t != [] ==> t[0] != 'x' && t[0] != 'X'
    ensures ParseUnsigned(DecimalString(n) + t) == Some(n)
  {
    var d := DecimalString(n);
    DigitRunOfDigits(d, t, 10);
    assert |d + t| >= 2 && (d + t)[0] == '0' ==> n == 0 && (d + t)[1] == t[0];
    assert !HasHexPrefix(d + t);
  }

  /** parseInt reads back the numeral of any integer, ignoring whatever
      follows it as long as that cannot continue the numeral. */
  lemma ParseIntOfNumeral(i: int, t: string)
    requires t == [] || !IsDigit(t[0], 10)
    requires i == 0 && t != [] ==> t[0] != 'x' && t[0] != 'X'
    ensures ParseInt(IntString(i) + t) == Some(i)
  {
    if i < 0 {
      ParseUnsignedOfNumeral(-i, t);
      ParseIntNegative(DecimalString(-i) + t, -i);
      NegativeNumeral(i, t);
    } else {
      ParseUnsignedOfNumeral(i, t);
      ParseIntUnsigned(DecimalString(i) + t);
    }
  }

  lemma NegativeNumeral(i: int, t: string)
    requires i < 0
    ensures IntString(i) + t == ['-'] + (DecimalString(-i) + t)
  {
  }

  /** A leading `-` negates the unsigned numeral after it. */
  lemma ParseIntNegative(u: string, n: nat)
    requires ParseUnsigned(u) == Some(n)
    ensures ParseInt(['-'] + u) == Some(-(n as int))
  {
    var s := ['-'] + u;
    assert s[0] == '-' && s[1..] == u;
    assert !IsStrWhiteSpace(s[0]);
    TrimStartNoWhiteSpace(s);
    assert ParseInt(s) == ParseSigned(s);
    assert ParseSigned(s) == Some(-(n as int));
  }

  lemma ParseIntUnsigned(u: string)
    requires u != [] && IsDigit(u[0], 10)
    ensures ParseInt(u) == ParseUnsigned(u)
  {
    assert !IsStrWhiteSpace(u[0]);
    TrimStartNoWhiteSpace(u);
  }

  /** Without a sign, a digit or white space at its start, a string is `NaN`. */
  lemma ParseIntNotANumber(s: string)
    requires s == [] || !(IsDigit(s[0], 10) || s[0] == '+' || s[0] == '-' || IsStrWhiteSpace(s[0]))
    ensures ParseInt(s) == None
  {
    TrimStartNoWhiteSpace(s);
  }

  /** A number comes out only when, after white space and an optional sign,
      a decimal digit follows. */
  lemma ParseIntNeedsDigit(s: string)
    requires ParseInt(s).Some?
    ensures var u := TrimStart(s);
            var v := if u != [] && (u[0] == '+' || u[0] == '-') then u[1..] else u;
            v != [] && IsDigit(v[0], 10)
  {
    var u := TrimStart(s);
    var v := if u != [] && (u[0] == '+' || u[0] == '-') then u[1..] else u;
    assert ParseUnsigned(v).Some?;
  }

  /** A leading `+` is skipped. */
  lemma ParseIntPlus(u: string, n: nat)
    requires ParseUnsigned(u) == Some(n)
    ensures ParseInt(['+'] + u) == Some(n)
  {
    var s := ['+'] + u;
    assert s[0] == '+' && s[1..] == u;
    assert !IsStrWhiteSpace(s[0]);
    TrimStartNoWhiteSpace(s);
    assert ParseInt(s) == ParseSigned(s);
  }

  /** Any non-empty run of decimal digits is read for its value, leading
      zeros included, up to the first character that is no decimal digit. */
  lemma UnsignedOfDigits(d: string, t: string)
    requires d != [] && forall i :: 0 <= i < |d| ==> IsDigit(d[i], 10)
    requires t == [] || !IsDigit(t[0], 10)
    requires !HasHexPrefix(d + t)
    ensures ParseUnsigned(d + t) == Some(DigitsValue(d, 10))
  {
    DigitRunOfDigits(d, t, 10);
  }

  /** A decimal digit run of value `n`, after white space and an optional
      sign, is read as `n`, negated after `-`. */
  lemma ParseIntDecimal(ws: string, sign: string, d: string, t: string, n: nat)
    requires forall i :: 0 <= i < |ws| ==> IsStrWhiteSpace(ws[i])
    requires sign == [] || sign == ['+'] || sign == ['-']
    requires d != [] && forall i :: 0 <= i < |d| ==> IsDigit(d[i], 10)
    requires t == [] || !IsDigit(t[0], 10)
    requires !HasHexPrefix(d + t)
    requires n == DigitsValue(d, 10)
    ensures ParseInt(ws + (sign + (d + t))) == Some(if sign == ['-'] then -(n as int) else n)
  {
    var u := d + t;
    UnsignedOfDigits(d, t);
    if sign == ['-'] {
      ParseIntNegative(u, n);
    } else if sign == ['+'] {
      ParseIntPlus(u, n);
    } else {
      assert sign + u == u;
      ParseIntUnsigned(u);
    }
    ParseIntSkipsLeadingWhiteSpace(ws, sign + u);
  }

  /** A `0x` prefix switches to radix 16: the hexadecimal digits after it
      are read, up to the first character that is none. */
  lemma ParseIntHexNumeral(d: string, t: string)
    requires d != [] && forall i :: 0 <= i < |d| ==> IsDigit(d[i], 16)
    requires t == [] || !IsDigit(t[0], 16)
    ensures ParseInt("0x" + (d + t)) == Some(DigitsValue(d, 16))
  {
    var rest := d + t;
    var s := "0x" + rest;
    assert s[0] == '0' && IsDigit(s[0], 10);
    ParseIntUnsigned(s);
    assert HasHexPrefix(s);
    assert s[2..] == rest;
    DigitRunOfDigits(d, t, 16);
    assert ParseUnsigned(s) == ParseDigits(rest, 16);
  }

  /** With no hexadecimal digit after the prefix the result is `NaN`. */
  lemma ParseIntBareHexPrefix(s: string)
    requires s == "0X"
    ensures ParseInt(s) == None
  {
    ParseIntUnsigned(s);
    assert HasHexPrefix(s) && s[2..] == [];
  }
}
