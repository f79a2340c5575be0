/** Decimal rendering of integers (template literals such as `Joueur ${id}`) and
    ECMAScript's `parseInt(string)` with no radix argument, on mathematical integers. */
module Numbers {
  import opened Wrappers

  predicate IsDecimalDigit(c: char) {
    '0' <= c <= '9'
  }

  predicate IsHexDigit(c: char) {
    IsDecimalDigit(c) || 'a' <= c <= 'f' || 'A' <= c <= 'F'
  }

  /** A digit of `radix`; `parseInt` only ever uses radix 10 or 16. */
  predicate IsRadixDigit(c: char, radix: nat) {
    if radix == 16 then IsHexDigit(c) else IsDecimalDigit(c)
  }

  predicate AllRadixDigits(z: string, radix: nat) {
    forall k :: 0 <= k < |z| ==> IsRadixDigit(z[k], radix)
  }

  function DigitValue(c: char): (d: nat)
    requires IsHexDigit(c)
    ensures d < 16
    ensures IsDecimalDigit(c) ==> d < 10
  {
    if IsDecimalDigit(c) then c as int - '0' as int
    else if 'a' <= c <= 'f' then c as int - 'a' as int + 10
    else c as int - 'A' as int + 10
  }

  function DigitChar(d: nat): (c: char)
    requires d < 10
    ensures IsDecimalDigit(c) && DigitValue(c) == d
  {
    ('0' as int + d) as char
  }

  /** The shortest decimal numeral of `n`, as JavaScript writes it. */
  function NatToString(n: nat): (s: string)
    ensures |s| > 0 && s[0] != '-'
    ensures s[0] == '0' <==> n == 0
    decreases n
  {
    if n < 10 then [DigitChar(n)] else NatToString(n / 10) + [DigitChar(n % 10)]
  }

  function IntToString(i: int): (s: string)
    ensures |s| > 0
    ensures s[0] == '-' <==> i < 0
  {
    if i < 0 then "-" + NatToString(-i) else NatToString(i)
  }

  /** White space and line terminators that `parseInt` skips before the numeral. */
  predicate IsJsWhiteSpace(c: char) {
    c == '\t' || c == '\n' || c == '\U{000B}' || c == '\U{000C}' || c == '\r' || c == ' '
    || c == '\U{00A0}' || c == '\U{1680}' || '\U{2000}' <= c <= '\U{200A}'
    || c == '\U{2028}' || c == '\U{2029}' || c == '\U{202F}' || c == '\U{205F}'
    || c == '\U{3000}' || c == '\U{FEFF}'
  }

  function TrimStart(s: string): (t: string)
    ensures |t| <= |s| && t == s[|s| - |t|..]
    ensures |t| > 0 ==> !IsJsWhiteSpace(t[0])
    ensures forall k :: 0 <= k < |s| - |t| ==> IsJsWhiteSpace(s[k])
  {
    if |s| > 0 && IsJsWhiteSpace(s[0]) then TrimStart(s[1..]) else s
  }

  /** The longest prefix of `w` made of digits of `radix`. */
  function DigitPrefix(w: string, radix: nat): (z: string)
    ensures |z| <= |w| && z == w[..|z|]
    ensures AllRadixDigits(z, radix)
    ensures |z| < |w| ==> !IsRadixDigit(w[|z|], radix)
  {
    if |w| == 0 || !IsRadixDigit(w[0], radix) then [] else [w[0]] + DigitPrefix(w[1..], radix)
  }

  /** The value of a numeral, most significant digit first. */
  function DigitsValue(z: string, radix: nat): nat
    requires radix == 10 || radix == 16
    requires AllRadixDigits(z, radix)
  {
    if |z| == 0 then 0 else DigitsValue(z[..|z| - 1], radix) * radix + DigitValue(z[|z| - 1])
  }

  /** `parseInt` after the sign: a `0x`/`0X` prefix selects radix 16 (radix 10 otherwise),
      then the longest run of digits is read; `None` when there is no digit. */
  function ParseUnsigned(u: string): (r: Option<nat>)
    ensures r.Some? ==> |u| > 0 && IsDecimalDigit(u[0])
  {
    var hex := |u| >= 2 && u[0] == '0' && (u[1] == 'x' || u[1] == 'X');
    var radix := if hex then 16 else 10;
    var z := DigitPrefix(if hex then u[2..] else u, radix);
    if |z| == 0 then None else Some(DigitsValue(z, radix))
  }

  /** `parseInt` after the white space: one optional sign, then the unsigned numeral.
      `-0` is folded into `0`. */
  function ParseSigned(t: string): (r: Option<int>)
    ensures r.Some? ==> |t| > 0
    ensures r.Some? && r.value < 0 ==> t[0] == '-'
  {
    if |t| > 0 && t[0] == '-' then
      match ParseUnsigned(t[1..])
      case Some(n) => Some(-(n as int))
      case None => None
    else if |t| > 0 && t[0] == '+' then
      match ParseUnsigned(t[1..])
      case Some(n) => Some(n)
      case None => None
    else
      match ParseUnsigned(t)
      case Some(n) => Some(n)
      case None => None
  }

  /** `parseInt(s)`: skip leading white space, then read a signed numeral; `None` is `NaN`. */
  function ParseInt(s: string): (r: Option<int>)
    ensures r.Some? ==> |TrimStart(s)| > 0
    ensures r.Some? && r.value < 0 ==> TrimStart(s)[0] == '-'
  {
    ParseSigned(TrimStart(s))
  }

  /** Every character of a rendered numeral is a decimal digit. */
  lemma {:induction false} NatToStringDigits(n: nat)
    ensures AllRadixDigits(NatToString(n), 10)
    decreases n
  {
    if n >= 10 {
      NatToStringDigits(n / 10);
      var s := NatToString(n);
      var p := NatToString(n / 10);
      assert s == p + [DigitChar(n % 10)];
      forall k | 0 <= k < |s| ensures IsRadixDigit(s[k], 10) {
        if k < |p| {
          assert s[k] == p[k];
        }
      }
    }
  }

  lemma {:induction false} DigitsValueOfNatToString(n: nat)
    ensures AllRadixDigits(NatToString(n), 10) && DigitsValue(NatToString(n), 10) == n
    decreases n
  {
    NatToStringDigits(n);
    var s := NatToString(n);
    if n >= 10 {
      DigitsValueOfNatToString(n / 10);
      assert s[..|s| - 1] == NatToString(n / 10);
    }
  }

  lemma {:induction false} DigitPrefixOfDigits(z: string, rest: string, radix: nat)
    requires AllRadixDigits(z, radix)
    requires |rest| > 0 ==> !IsRadixDigit(rest[0], radix)
    ensures DigitPrefix(z + rest, radix) == z
  {
    if |z| > 0 {
      assert (z + rest)[1..] == z[1..] + rest;
      DigitPrefixOfDigits(z[1..], rest, radix);
    } else {
      assert z + rest == rest;
    }
  }

  lemma ParseUnsignedOfNatToString(n: nat, rest: string)
    requires |rest| > 0 ==> !IsDecimalDigit(rest[0])
    requires n == 0 && |rest| > 0 ==> rest[0] != 'x' && rest[0] != 'X'
    ensures ParseUnsigned(NatToString(n) + rest) == Some(n)
  {
    var d := NatToString(n);
    var u := d + rest;
    assert u[0] == d[0];
    if |u| >= 2 && u[0] == '0' {
      assert n == 0 && |d| == 1;
      assert u[1] == rest[0];
    }
    DigitsValueOfNatToString(n);
    DigitPrefixOfDigits(d, rest, 10);
  }

  lemma TrimStartKeeps(s: string)
    requires |s| > 0 && !IsJsWhiteSpace(s[0])
    ensures TrimStart(s) == s
  {
  }

  /** After a `-`, the sign negates whatever the unsigned part reads. */
  lemma ParseSignedMinus(t: string, n: nat)
    requires |t| > 0 && t[0] == '-' && ParseUnsigned(t[1..]) == Some(n)
    ensures ParseSigned(t) == Some(-(n as int))
  {
  }

  /** The numeral of a negative integer is `-` and then the numeral of its magnitude. */
  lemma IntToStringNegative(i: int, rest: string)
    requires i < 0
    ensures (IntToString(i) + rest)[0] == '-'
    ensures (IntToString(i) + rest)[1..] == NatToString(-i) + rest
  {
    assert IntToString(i) == "-" + NatToString(-i);
  }

  lemma {:induction false} ParseSignedOfNegative(i: int, rest: string)
    requires i < 0
    requires |rest| > 0 ==> !IsDecimalDigit(rest[0])
    ensures ParseSigned(IntToString(i) + rest) == Some(i)
  {
    IntToStringNegative(i, rest);
    ParseUnsignedOfNatToString(-i, rest);
    ParseSignedMinus(IntToString(i) + rest, -i);
  }

  lemma ParseSignedOfNatural(n: nat, rest: string)
    requires |rest| > 0 ==> !IsDecimalDigit(rest[0])
    requires n == 0 && |rest| > 0 ==> rest[0] != 'x' && rest[0] != 'X'
    ensures ParseSigned(NatToString(n) + rest) == Some(n)
  {
    assert (NatToString(n) + rest)[0] == NatToString(n)[0];
    ParseUnsignedOfNatToString(n, rest);
  }

  lemma ParseSignedOfIntToString(i: int, rest: string)
    requires |rest| > 0 ==> !IsDecimalDigit(rest[0])
    requires i == 0 && |rest| > 0 ==> rest[0] != 'x' && rest[0] != 'X'
    ensures ParseSigned(IntToString(i) + rest) == Some(i)
  {
    if i < 0 {
      ParseSignedOfNegative(i, rest);
    } else {
      ParseSignedOfNatural(i, rest);
    }
  }

  /** `parseInt` reads back what the template literal wrote, whatever follows it, as long
      as the next character does not continue the numeral (a digit, or an `x` after a lone `0`). */
  lemma ParseIntOfIntToString(i: int, rest: string)
    requires |rest| > 0 ==> !IsDecimalDigit(rest[0])
    requires i == 0 && |rest| > 0 ==> rest[0] != 'x' && rest[0] != 'X'
    ensures ParseInt(IntToString(i) + rest) == Some(i)
  {
    var s := IntToString(i) + rest;
    assert s[0] == IntToString(i)[0];
    if i >= 0 {
      NatToStringDigits(i);
      assert IsRadixDigit(NatToString(i)[0], 10);
    }
    assert s[0] == '-' || IsDecimalDigit(s[0]);
    TrimStartKeeps(s);
    ParseSignedOfIntToString(i, rest);
  }

  /** The same with nothing after the numeral: rendering then parsing is the identity. */
  lemma ParseIntRoundTrip(i: int)
    ensures ParseInt(IntToString(i)) == Some(i)
  {
    ParseIntOfIntToString(i, "");
    assert IntToString(i) + "" == IntToString(i);
  }

  /** The unsigned part finds a number exactly when the text starts with a decimal digit, and a
      `0x` prefix is followed by a hex digit. */
  lemma ParseUnsignedDefined(u: string)
    ensures ParseUnsigned(u).Some? <==>
      (|u| > 0 && IsDecimalDigit(u[0]) &&
       (|u| >= 2 && u[0] == '0' && (u[1] == 'x' || u[1] == 'X') ==> |u| > 2 && IsHexDigit(u[2])))
  {
    var hex := |u| >= 2 && u[0] == '0' && (u[1] == 'x' || u[1] == 'X');
    var w := if hex then u[2..] else u;
    var z := DigitPrefix(w, if hex then 16 else 10);
    if |z| > 0 {
      assert z[0] == w[0];
    }
  }

  /** `parseInt` finds a number exactly when, after the white space and the sign, the text starts
      with a decimal digit, and a `0x` prefix is followed by a hex digit. */
  lemma ParseIntDefined(s: string)
    ensures var t := TrimStart(s);
            var u := if |t| > 0 && (t[0] == '-' || t[0] == '+') then t[1..] else t;
            (ParseInt(s).Some? <==>
              (|u| > 0 && IsDecimalDigit(u[0]) &&
               (|u| >= 2 && u[0] == '0' && (u[1] == 'x' || u[1] == 'X') ==> |u| > 2 && IsHexDigit(u[2]))))
  {
    var t := TrimStart(s);
    if |t| > 0 && (t[0] == '-' || t[0] == '+') {
      ParseUnsignedDefined(t[1..]);
    } else {
      ParseUnsignedDefined(t);
    }
  }
}
