/** JavaScript's conversions of parsed JSON values: `String(value)`, which
    makes a property key or the text a value is concatenated into, and
    `ToNumber` of a string, which loose equality applies when it compares a
    string with a number. Values are exact: the rounding of doubles is not
    modelled. */
module Coercion {
  import opened Wrappers
  import opened Json
  import Sentinel

  /** `String(value)`: a number in decimal, an array its elements joined
      with commas (null printing as nothing), an object
      `[object Object]`. */
  function PropertyKey(j: Json): (key: string)
    ensures j.JString? ==> key == j.s
    ensures j.JNumber? && j.n >= 0 ==> key == Sentinel.Decimal(j.n)
  {
    match j
    case JNull => "null"
    case JBool(b) => if b then "true" else "false"
    case JNumber(n) => if n < 0 then "-" + Sentinel.Decimal(-n) else Sentinel.Decimal(n)
    case JString(s) => s
    case JArray(items) =>
      Join(seq(|items|, i requires 0 <= i < |items| => if items[i].JNull? then "" else PropertyKey(items[i])))
    case JObject(_) => "[object Object]"
  }

  /** `Array.prototype.join(',')` of printed elements. */
  function Join(parts: seq<string>): (text: string)
    ensures |parts| == 1 ==> text == parts[0]
  {
    if parts == [] then "" else if |parts| == 1 then parts[0] else parts[0] + "," + Join(parts[1..])
  }

  /** A JavaScript number as `ToNumber` of a string gives it. */
  datatype Num = NaN | Infinite(negative: bool) | Finite(r: real)

  /** The code points ECMAScript counts as WhiteSpace or LineTerminator,
      which `ToNumber` trims from both ends. */
  predicate IsSpace(c: char) {
    var n := c as int;
    n == 0x09 || n == 0x0A || n == 0x0B || n == 0x0C || n == 0x0D || n == 0x20 || n == 0xA0
    || n == 0x1680 || (0x2000 <= n <= 0x200A) || n == 0x2028 || n == 0x2029 || n == 0x202F
    || n == 0x205F || n == 0x3000 || n == 0xFEFF
  }

  /** The string without white space at either end. */
  function Trim(s: string): (t: string)
    ensures |t| <= |s|
    ensures t != [] ==> !IsSpace(t[0]) && !IsSpace(t[|t| - 1])
    ensures (forall i :: 0 <= i < |s| ==> !IsSpace(s[i])) ==> t == s
    decreases |s|
  {
    if s != [] && IsSpace(s[0]) then Trim(s[1..])
    else if s != [] && IsSpace(s[|s| - 1]) then Trim(s[..|s| - 1])
    else s
  }

  /** The value of a digit or letter in radix 36, or -1. */
  function DigitValue(c: char): (d: int)
    ensures -1 <= d < 36
    ensures '0' <= c <= '9' <==> 0 <= d < 10
  {
    if '0' <= c <= '9' then c as int - '0' as int
    else if 'a' <= c <= 'z' then c as int - 'a' as int + 10
    else if 'A' <= c <= 'Z' then c as int - 'A' as int + 10
    else -1
  }

  predicate AllRadix(s: string, radix: nat) {
    forall i :: 0 <= i < |s| ==> 0 <= DigitValue(s[i]) < radix
  }

  /** The number a string of digits writes in `radix`. */
  function RadixValue(s: string, radix: nat): nat
    requires AllRadix(s, radix)
  {
    if s == [] then 0 else RadixValue(s[..|s| - 1], radix) * radix + DigitValue(s[|s| - 1])
  }

  /** The first position holding one of `marks`. */
  function Position(s: string, marks: set<char>): (r: Option<nat>)
    ensures r.Some? ==> r.value < |s| && s[r.value] in marks
    ensures r.Some? ==> forall i :: 0 <= i < r.value ==> s[i] !in marks
    ensures r.None? ==> forall i :: 0 <= i < |s| ==> s[i] !in marks
  {
    if s == [] then None
    else if s[0] in marks then Some(0)
    else match Position(s[1..], marks)
      case None => None
      case Some(i) => Some(i + 1)
  }

  function Pow10(n: nat): (r: real)
    ensures r >= 1.0
  {
    if n == 0 then 1.0 else 10.0 * Pow10(n - 1)
  }

  /** `x` times ten to the power `e`. */
  function Scale(x: real, e: int): real {
    if e >= 0 then x * Pow10(e) else x / Pow10(-e)
  }

  /** The digits of a decimal literal, with at most one point and at least
      one digit. */
  function Mantissa(m: string): (r: Option<real>)
    ensures r.Some? ==> r.value >= 0.0
  {
    match Position(m, {'.'})
    case None => if m != [] && AllRadix(m, 10) then Some(RadixValue(m, 10) as real) else None
    case Some(i) =>
      var whole, frac := m[..i], m[i + 1..];
      if |whole| + |frac| > 0 && AllRadix(whole, 10) && AllRadix(frac, 10)
      then Some(RadixValue(whole, 10) as real + RadixValue(frac, 10) as real / Pow10(|frac|))
      else None
  }

  /** The exponent after `e` or `E`: an optional sign, then digits. */
  function Exponent(e: string): Option<int> {
    if e != [] && (e[0] == '+' || e[0] == '-') then
      if |e| > 1 && AllRadix(e[1..], 10) then
        var v: int := RadixValue(e[1..], 10);
        Some(if e[0] == '-' then -v else v)
      else None
    else if e != [] && AllRadix(e, 10) then Some(RadixValue(e, 10))
    else None
  }

  /** A StrUnsignedDecimalLiteral: `Infinity`, or a mantissa with an
      optional exponent. */
  function UnsignedDecimal(u: string): Num {
    if u == "Infinity" then Infinite(false)
    else
      var mant := match Position(u, {'e', 'E'}) case None => u case Some(i) => u[..i];
      var exp := match Position(u, {'e', 'E'}) case None => Some(0) case Some(i) => Exponent(u[i + 1..]);
      match Mantissa(mant)
      case None => NaN
      case Some(m) => if exp.None? then NaN else Finite(Scale(m, exp.value))
  }

  function Negate(n: Num): Num {
    match n
    case NaN => NaN
    case Infinite(neg) => Infinite(!neg)
    case Finite(r) => Finite(-r)
  }

  /** `ToNumber` of a string: white space trimmed; empty gives 0; `0x`,
      `0o` and `0b` literals with no sign; otherwise a signed decimal
      literal or `Infinity`; anything else `NaN`. */
  function StringToNumber(s: string): Num {
    var t := Trim(s);
    if t == [] then Finite(0.0)
    else if |t| > 2 && t[0] == '0' && t[1] in {'x', 'X', 'o', 'O', 'b', 'B'} then
      var radix := if t[1] in {'x', 'X'} then 16 else if t[1] in {'o', 'O'} then 8 else 2;
      if AllRadix(t[2..], radix) then Finite(RadixValue(t[2..], radix) as real) else NaN
    else if t[0] == '+' then UnsignedDecimal(t[1..])
    else if t[0] == '-' then Negate(UnsignedDecimal(t[1..]))
    else UnsignedDecimal(t)
  }

  /** `value + 1`, as loose equality with a number sees it: null and
      booleans become numbers, and anything else becomes its text followed
      by `1`, which the comparison reads with `ToNumber`. */
  function PlusOne(v: Json): (n: Num)
    ensures v.JNumber? ==> n == Finite((v.n + 1) as real)
    ensures v == JNull || v == JBool(false) ==> n == Finite(1.0)
    ensures v == JBool(true) ==> n == Finite(2.0)
  {
    match v
    case JNull => Finite(1.0)
    case JBool(b) => Finite(if b then 2.0 else 1.0)
    case JNumber(k) => Finite((k + 1) as real)
    case _ => StringToNumber(PropertyKey(v) + "1")
  }

  /** Digits read in radix 10 give the value `Sentinel.DecimalValue` gives. */
  lemma {:induction false} RadixTen(s: string)
    requires Sentinel.AllDigits(s)
    ensures AllRadix(s, 10) && RadixValue(s, 10) == Sentinel.DecimalValue(s)
  {
    if s != [] {
      RadixTen(s[..|s| - 1]);
    }
  }

  /** `ToNumber` reads back the decimal text of a number, with or without
      a minus sign. */
  lemma StringToNumberOfDecimal(n: nat)
    ensures StringToNumber(Sentinel.Decimal(n)) == Finite(n as real)
    ensures StringToNumber("-" + Sentinel.Decimal(n)) == Finite(-(n as real))
  {
    var d := Sentinel.Decimal(n);
    Sentinel.DecimalValueOfDecimal(n);
    DigitsToNumber(d);
    NegatedDigitsToNumber(d);
  }

  /** A non-empty string of digits reads as its decimal value. */
  lemma DigitsToNumber(d: string)
    requires d != [] && Sentinel.AllDigits(d)
    ensures StringToNumber(d) == Finite(Sentinel.DecimalValue(d) as real)
  {
    UnsignedDigits(d);
    assert Sentinel.IsDigit(d[0]);
    assert |d| > 2 ==> Sentinel.IsDigit(d[1]);
  }

  /** A minus sign before a non-empty string of digits negates its value. */
  lemma NegatedDigitsToNumber(d: string)
    requires d != [] && Sentinel.AllDigits(d)
    ensures StringToNumber("-" + d) == Finite(-(Sentinel.DecimalValue(d) as real))
  {
    UnsignedDigits(d);
    var m := "-" + d;
    assert m[1..] == d && m[0] == '-';
    forall i | 0 <= i < |m|
      ensures !IsSpace(m[i])
    {
      if i > 0 {
        assert m[i] == d[i - 1];
      }
    }
    assert Trim(m) == m;
  }

  /** A non-empty string of decimal digits is the decimal literal of its
      value, and has no white space to trim. */
  lemma UnsignedDigits(d: string)
    requires d != [] && Sentinel.AllDigits(d)
    ensures Trim(d) == d
    ensures UnsignedDecimal(d) == Finite(Sentinel.DecimalValue(d) as real)
  {
    RadixTen(d);
    assert forall i :: 0 <= i < |d| ==> d[i] !in {'e', 'E'} && d[i] != '.' && !IsSpace(d[i]) by {
      forall i | 0 <= i < |d|
        ensures d[i] !in {'e', 'E'} && d[i] != '.' && !IsSpace(d[i])
      {
        assert Sentinel.IsDigit(d[i]);
      }
    }
    assert Position(d, {'e', 'E'}) == None;
    assert Position(d, {'.'}) == None;
    assert d != "Infinity" by { assert Sentinel.IsDigit(d[0]); }
    assert Scale(RadixValue(d, 10) as real, 0) == RadixValue(d, 10) as real;
  }

  /** `"" + 1` and `"0" + 1` read as 1; `"x" + 1` is not a number. */
  lemma PlusOneOfText()
    ensures PlusOne(JString("")) == Finite(1.0)
    ensures PlusOne(JString("0")) == Finite(1.0)
    ensures PlusOne(JString("x")) == NaN
  {
    EmptyPlusOne();
    ZeroPlusOne();
    assert PlusOne(JString("x")) == StringToNumber("x1") by {
      assert PropertyKey(JString("x")) + "1" == "x1";
    }
    NotANumber();
  }

  /** `"" + 1` is `"1"`, which reads as 1. */
  lemma EmptyPlusOne()
    ensures PlusOne(JString("")) == Finite(1.0)
  {
    assert PropertyKey(JString("")) + "1" == "1";
    DigitsToNumber("1");
    assert Sentinel.DecimalValue("1") == 1 by {
      assert "1"[..0] == "";
    }
  }

  /** `"0" + 1` is `"01"`, which reads as 1. */
  lemma ZeroPlusOne()
    ensures PlusOne(JString("0")) == Finite(1.0)
  {
    assert PropertyKey(JString("0")) + "1" == "01";
    DigitsToNumber("01");
    assert Sentinel.DecimalValue("01") == 1 by {
      assert "01"[..1] == "0" && "0"[..0] == "";
    }
  }

  /** A string whose text followed by `1` is all digits adds 1 as that
      decimal number. */
  lemma DigitsPlusOne(s: string)
    requires Sentinel.AllDigits(s + "1")
    ensures PlusOne(JString(s)) == Finite(Sentinel.DecimalValue(s + "1") as real)
  {
    assert PropertyKey(JString(s)) + "1" == s + "1";
    DigitsToNumber(s + "1");
  }

  /** `"x1"` is not a number. */
  lemma NotANumber()
    ensures StringToNumber("x1") == NaN
  {
    assert "x1"[1..] == "1" && "1"[1..] == "";
    assert !IsSpace('x') && !IsSpace('1');
    assert Trim("x1") == "x1";
    assert Position("x1", {'e', 'E'}) == None;
    assert Position("x1", {'.'}) == None;
    assert DigitValue('x') == 33;
  }
}
