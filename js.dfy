/**
  The few JavaScript built-ins the handlers rely on, stated in Dafny terms:
  truthiness (ToBoolean), String() of the values a request body can hold,
  parseInt with no radix, and String.prototype.split / Array.prototype.join
  with a one-character separator. Numbers are integers here; the model does
  not follow IEEE-754 doubles.
 */
module Js {

  /** A JavaScript value as it can occur in a parsed request body. */
  datatype Value = Undefined | Null | Bool(b: bool) | Num(n: int) | NaN | Str(s: string)

  /** ToBoolean: the test behind `if (x)` and `x || y`. */
  predicate Truthy(v: Value)
  {
    match v
    case Undefined => false
    case Null => false
    case Bool(b) => b
    case Num(n) => n != 0
    case NaN => false
    case Str(s) => s != ""
  }

  // ---------------------------------------------------------------------------
  // String() of an integral Number

  predicate IsDecimalDigit(c: char)
  {
    '0' <= c <= '9'
  }

  function DecimalDigit(d: nat): (c: char)
    requires d < 10
    ensures IsDecimalDigit(c) && DigitValue(c) == d
  {
    (('0' as int) + d) as char
  }

  /** The shortest decimal spelling of n: no leading zero unless n is zero. */
  function NatToDecimal(n: nat): (s: string)
    ensures |s| >= 1
    ensures forall i :: 0 <= i < |s| ==> IsDecimalDigit(s[i])
    ensures s[0] == '0' ==> n == 0
    decreases n
  {
    if n < 10 then [DecimalDigit(n)] else NatToDecimal(n / 10) + [DecimalDigit(n % 10)]
  }

  /** Number::toString for an integral value (the exponent form for magnitudes of 10^21 and more is not modelled). */
  function NumberToString(n: int): (s: string)
    ensures s != []
  {
    if n < 0 then "-" + NatToDecimal(-n) else NatToDecimal(n)
  }

  /** ToString of the values a request body can hold. */
  function ToString(v: Value): string
  {
    match v
    case Undefined => "undefined"
    case Null => "null"
    case Bool(b) => if b then "true" else "false"
    case Num(n) => NumberToString(n)
    case NaN => "NaN"
    case Str(s) => s
  }

  // ---------------------------------------------------------------------------
  // parseInt(string) with the radix left undefined

  /** StrWhiteSpaceChar: the WhiteSpace and LineTerminator code points that parseInt skips. */
  predicate IsStrWhiteSpace(c: char)
  {
    c == '\t' || c == '\n' || c == '\U{000B}' || c == '\U{000C}' || c == '\r' || c == ' ' ||
    c == '\U{00A0}' || c == '\U{1680}' || ('\U{2000}' <= c <= '\U{200A}') ||
    c == '\U{2028}' || c == '\U{2029}' || c == '\U{202F}' || c == '\U{205F}' ||
    c == '\U{3000}' || c == '\U{FEFF}'
  }

  /** What is left of s once its leading white space is removed. */
  function TrimStart(s: string): (t: string)
    ensures |t| <= |s| && t == s[|s| - |t|..]
    ensures t == [] || !IsStrWhiteSpace(t[0])
    ensures forall i :: 0 <= i < |s| - |t| ==> IsStrWhiteSpace(s[i])
  {
    if s != [] && IsStrWhiteSpace(s[0]) then TrimStart(s[1..]) else s
  }

  /** The value of c as a digit of radix up to 36; 36 when c is not a digit at all. */
  function DigitValue(c: char): (d: nat)
    ensures d <= 36
  {
    if '0' <= c <= '9' then c as int - '0' as int
    else if 'a' <= c <= 'z' then c as int - 'a' as int + 10
    else if 'A' <= c <= 'Z' then c as int - 'A' as int + 10
    else 36
  }

  /** The longest prefix of s made of digits of the given radix. */
  function DigitPrefix(s: string, radix: nat): (z: string)
    ensures |z| <= |s| && z == s[..|z|]
    ensures forall i :: 0 <= i < |z| ==> DigitValue(z[i]) < radix
    ensures |z| < |s| ==> DigitValue(s[|z|]) >= radix
  {
    if s != [] && DigitValue(s[0]) < radix then [s[0]] + DigitPrefix(s[1..], radix) else []
  }

  /** The mathematical value of a digit string in the given radix. */
  function DigitsValue(z: string, radix: nat): nat
  {
    if z == [] then 0
    else DigitsValue(z[..|z| - 1], radix) * radix + (if DigitValue(z[|z| - 1]) < 36 then DigitValue(z[|z| - 1]) else 0)
  }

  /** The digits after the sign: radix 16 after a "0x"/"0X" prefix, radix 10 otherwise; NaN without digits. */
  function ParseUnsigned(u: string): (v: Value)
    ensures v.Num? || v.NaN?
  {
    var hex := |u| >= 2 && u[0] == '0' && (u[1] == 'x' || u[1] == 'X');
    var radix := if hex then 16 else 10;
    var digits := DigitPrefix(if hex then u[2..] else u, radix);
    if digits == [] then NaN else Num(DigitsValue(digits, radix))
  }

  /** One optional sign, then the unsigned part; a minus sign negates the result. */
  function ParseSigned(t: string): (v: Value)
    ensures v.Num? || v.NaN?
  {
    if t != [] && t[0] == '-' then
      match ParseUnsigned(t[1..])
      case Num(n) => Num(-n)
      case _ => NaN
    else if t != [] && t[0] == '+' then ParseUnsigned(t[1..])
    else ParseUnsigned(t)
  }

  /** parseInt(s) with no radix: skip leading white space, then read a signed integer prefix. */
  function ParseInt(s: string): (v: Value)
    ensures v.Num? || v.NaN?
  {
    ParseSigned(TrimStart(s))
  }

  /** parseInt applied to an arbitrary value: its argument is first converted with String(). */
  function ParseIntValue(v: Value): (r: Value)
    ensures r.Num? || r.NaN?
  {
    ParseInt(ToString(v))
  }

  lemma {:induction false} DigitPrefixOfDigits(s: string, radix: nat)
    requires forall i :: 0 <= i < |s| ==> DigitValue(s[i]) < radix
    ensures DigitPrefix(s, radix) == s
    decreases |s|
  {
    if s != [] {
      DigitPrefixOfDigits(s[1..], radix);
    }
  }

  /** The digit scan stops at the first character that is not a digit of the radix. */
  lemma {:induction false} DigitPrefixStops(d: string, rest: string, radix: nat)
    requires forall i :: 0 <= i < |d| ==> DigitValue(d[i]) < radix
    requires rest == [] || DigitValue(rest[0]) >= radix
    ensures DigitPrefix(d + rest, radix) == d
    decreases |d|
  {
    if d == [] {
      assert d + rest == rest;
    } else {
      assert (d + rest)[1..] == d[1..] + rest;
      DigitPrefixStops(d[1..], rest, radix);
    }
  }

  lemma {:induction false} DigitsValueOfDecimal(n: nat)
    ensures DigitsValue(NatToDecimal(n), 10) == n
    decreases n
  {
    if n >= 10 {
      var s := NatToDecimal(n);
      assert s == NatToDecimal(n / 10) + [DecimalDigit(n % 10)];
      assert s[..|s| - 1] == NatToDecimal(n / 10);
      DigitsValueOfDecimal(n / 10);
    }
  }

  /** A decimal digit string without a leading zero is read in radix 10. */
  lemma ParseUnsignedOfDecimal(d: string)
    requires d != [] && (forall i :: 0 <= i < |d| ==> IsDecimalDigit(d[i]))
    requires d[0] == '0' ==> |d| == 1
    ensures ParseUnsigned(d) == Num(DigitsValue(d, 10))
  {
    DigitPrefixOfDigits(d, 10);
  }

  /** Leading white space is all parseInt skips: a string starting elsewhere is kept whole. */
  lemma TrimStartKeeps(s: string)
    requires s != [] && !IsStrWhiteSpace(s[0])
    ensures TrimStart(s) == s
  {
  }

  /** parseInt reads back exactly the integer that String() wrote. */
  lemma ParseIntOfNumberToString(n: int)
    ensures ParseInt(NumberToString(n)) == Num(n)
  {
    var m := if n < 0 then -n else n;
    var d := NatToDecimal(m);
    DigitsValueOfDecimal(m);
    ParseUnsignedOfDecimal(d);
    if n < 0 {
      var s := "-" + d;
      assert s[0] == '-' && s[1..] == d;
      TrimStartKeeps(s);
      assert ParseSigned(s) == Num(-m);
    } else {
      assert IsDecimalDigit(d[0]);
      TrimStartKeeps(d);
      assert ParseSigned(d) == Num(m);
    }
  }

  /** A string that starts with a letter has no digit prefix, so parseInt gives NaN ("true", "abc"). */
  lemma ParseIntOfLetterIsNaN(s: string)
    requires s != [] && (('a' <= s[0] <= 'z') || ('A' <= s[0] <= 'Z'))
    ensures ParseInt(s) == NaN
  {
    assert !IsStrWhiteSpace(s[0]) && TrimStart(s) == s;
    assert s[0] != '-' && s[0] != '+' && s[0] != '0';
    assert ParseSigned(s) == ParseUnsigned(s);
    assert DigitValue(s[0]) >= 10;
    assert DigitPrefix(s, 10) == [];
  }

  /** Decimal digits led by a non-zero one have a positive value. */
  lemma {:induction false} DecimalValuePositive(d: string)
    requires d != [] && '1' <= d[0] <= '9'
    requires forall i :: 0 <= i < |d| ==> IsDecimalDigit(d[i])
    ensures DigitsValue(d, 10) > 0
    decreases |d|
  {
    if |d| > 1 {
      var init := d[..|d| - 1];
      assert init[0] == d[0];
      DecimalValuePositive(init);
    }
  }

  /**
    A string that starts with a non-zero decimal digit is read as its
    longest decimal prefix; whatever follows it is ignored ("12abc" is 12,
    "1e3" is 1).
   */
  lemma ParseIntOfDigitPrefix(d: string, rest: string)
    requires d != [] && '1' <= d[0] <= '9'
    requires forall i :: 0 <= i < |d| ==> IsDecimalDigit(d[i])
    requires rest == [] || !IsDecimalDigit(rest[0])
    ensures ParseInt(d + rest) == Num(DigitsValue(d, 10))
  {
    var s := d + rest;
    assert s[0] == d[0];
    assert !IsStrWhiteSpace(s[0]) && TrimStart(s) == s;
    assert ParseSigned(s) == ParseUnsigned(s);
    DigitPrefixStops(d, rest, 10);
  }

  // ---------------------------------------------------------------------------
  // split and join with a one-character separator

  /** String.prototype.split(sep) for a one-character separator: never empty, no part contains sep. */
  function Split(s: string, sep: char): (parts: seq<string>)
    ensures |parts| >= 1
    ensures forall i :: 0 <= i < |parts| ==> sep !in parts[i]
    ensures sep !in s <==> parts == [s]
    decreases |s|
  {
    if s == [] then [""]
    else
      var rest := Split(s[1..], sep);
      if s[0] == sep then [""] + rest
      else
        var parts := [[s[0]] + rest[0]] + rest[1..];
        assert s == [s[0]] + s[1..];
        assert parts[0] == [s[0]] + rest[0] && ([s[0]] + rest[0])[1..] == rest[0];
        assert parts == [s] ==> |rest| == 1 && rest[0] == parts[0][1..] == s[1..];
        parts
  }

  /** Array.prototype.join(sep) over strings. */
  function Join(parts: seq<string>, sep: string): string
  {
    if |parts| == 0 then ""
    else if |parts| == 1 then parts[0]
    else parts[0] + sep + Join(parts[1..], sep)
  }

  /** Joining the parts of a split with the same separator restores the string. */
  lemma {:induction false} JoinSplit(s: string, sep: char)
    ensures Join(Split(s, sep), [sep]) == s
    decreases |s|
  {
    if s != [] {
      var rest := Split(s[1..], sep);
      JoinSplit(s[1..], sep);
      if s[0] == sep {
        assert Split(s, sep)[1..] == rest;
      } else {
        var parts := Split(s, sep);
        assert parts[0] == [s[0]] + rest[0];
        if |rest| > 1 {
          assert parts[1..] == rest[1..];
          assert Join(rest, [sep]) == rest[0] + [sep] + Join(rest[1..], [sep]);
        }
      }
    }
  }

  /** A string free of the separator splits into itself alone. */
  lemma {:induction false} SplitWithoutSeparator(s: string, sep: char)
    requires sep !in s
    ensures Split(s, sep) == [s]
    decreases |s|
  {
    if s != [] {
      assert s[0] != sep;
      SplitWithoutSeparator(s[1..], sep);
      assert [s[0]] + s[1..] == s;
    }
  }

  /** A leading part free of the separator splits off as the first part. */
  lemma {:induction false} SplitAfterPart(p: string, sep: char, t: string)
    requires sep !in p
    ensures Split(p + [sep] + t, sep) == [p] + Split(t, sep)
    decreases |p|
  {
    if p == [] {
      assert [sep] + t == p + [sep] + t;
      assert (p + [sep] + t)[1..] == t;
    } else {
      var s := p + [sep] + t;
      assert s[1..] == p[1..] + [sep] + t;
      SplitAfterPart(p[1..], sep, t);
      assert [p[0]] + p[1..] == p;
    }
  }

  /** Splitting what join produced gives back the parts, provided none contains the separator. */
  lemma {:induction false} SplitJoin(parts: seq<string>, sep: char)
    requires |parts| >= 1
    requires forall i :: 0 <= i < |parts| ==> sep !in parts[i]
    ensures Split(Join(parts, [sep]), sep) == parts
    decreases |parts|
  {
    if |parts| == 1 {
      SplitWithoutSeparator(parts[0], sep);
    } else {
      SplitJoin(parts[1..], sep);
      SplitAfterPart(parts[0], sep, Join(parts[1..], [sep]));
      assert [parts[0]] + parts[1..] == parts;
    }
  }
}
