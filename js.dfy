/**
 * The JavaScript runtime values that the controllers inspect for truthiness,
 * type and numeric conversion (`!x`, `typeof x`, `Number(x)`, `isNaN(x)`,
 * `Number.isInteger(x)`, `parseInt(x)`).
 */
module Js {
  import opened Common
  import opened Text

  /** A value read from a request body or query. Numbers are reals; NaN is its own case. */
  datatype JsValue =
    | Undefined
    | Null
    | Bool(b: bool)
    | Num(x: real)
    | NaN
    | Str(s: string)
    | Object   // arrays and objects

  /** JavaScript truthiness: `!v` is `!Truthy(v)`. */
  predicate Truthy(v: JsValue)
  {
    match v
    case Undefined => false
    case Null => false
    case Bool(b) => b
    case Num(x) => x != 0.0
    case NaN => false
    case Str(s) => s != []
    case Object => true
  }

  /** `typeof v == "number"`. */
  predicate IsNumberType(v: JsValue)
  {
    v.Num? || v.NaN?
  }

  /** `Number.isInteger(v)`: a number without fractional part (never NaN, never a string). */
  predicate IsInteger(v: JsValue)
  {
    v.Num? && v.x == v.x.Floor as real
  }

  /** `10^n`. */
  function Pow10(n: nat): (p: nat)
    ensures p >= 1
  {
    if n == 0 then 1 else 10 * Pow10(n - 1)
  }

  /**
   * An unsigned decimal literal: digits, optionally a point followed by
   * more digits, with at least one digit in all (`"5"`, `"5."`, `".5"`,
   * `"1.25"`); `None` otherwise.
   */
  function DecimalValue(body: string): (r: Option<real>)
    ensures AllDigits(body) && body != [] ==> r == Some(DigitsValue(body) as real)
    ensures r.Some? ==> r.value >= 0.0
  {
    var k := DigitPrefixLength(body);
    var whole := body[..k];
    var rest := body[k..];
    assert AllDigits(body) ==> k == |body| && whole == body;
    if rest == [] then
      if k == 0 then None else Some(DigitsValue(whole) as real)
    else if rest[0] != '.' || !AllDigits(rest[1..]) || (k == 0 && |rest| == 1) then None
    else
      var frac := rest[1..];
      Some(DigitsValue(whole) as real + DigitsValue(frac) as real / Pow10(|frac|) as real)
  }

  /**
   * `Number(s)` for a string: surrounding whitespace is ignored; blank is
   * 0; `0x` or `0X` followed only by hexadecimal digits is their value (no
   * sign allowed); otherwise an optional sign and a decimal literal; anything
   * else is NaN. Exponents, `Infinity` and the `0b`/`0o` forms are not modelled.
   */
  function NumberOfString(s: string): (r: Option<real>)
    ensures AllSpace(s) ==> r == Some(0.0)
  {
    var t := Trim(s);
    TrimEmptyIffAllSpace(s);
    if t == [] then Some(0.0)
    else if HexPrefixed(t) then
      if |t| > 2 && AllHexDigits(t[2..]) then Some(HexValue(t[2..]) as real) else None
    else SignedDecimal(t)
  }

  /** An optional sign followed by a decimal literal. */
  function SignedDecimal(t: string): (r: Option<real>)
    requires t != []
  {
    var body := if t[0] == '-' || t[0] == '+' then t[1..] else t;
    var v := DecimalValue(body);
    if v.None? then None
    else Some(if t[0] == '-' then -v.value else v.value)
  }

  /** Text without surrounding whitespace and without a hexadecimal prefix is read as a signed decimal. */
  lemma NumberOfPlain(s: string)
    requires s != [] && !IsSpace(s[0]) && !IsSpace(s[|s| - 1]) && !HexPrefixed(s)
    ensures NumberOfString(s) == SignedDecimal(s)
  {
    TrimNoSurroundingSpace(s);
  }

  /** `Number(`${i}`)` is `i`. */
  lemma NumberOfIntToString(i: int)
    ensures NumberOfString(IntToString(i)) == Some(i as real)
  {
    var s := IntToString(i);
    var d := NatToString(if i < 0 then -i else i);
    assert s[|s| - 1] == d[|d| - 1];
    NumberOfPlain(s);
    DigitsValueNatToString(if i < 0 then -i else i);
    if i < 0 {
      assert s[1..] == d;
    }
  }

  /** `Number("1.5")` is 1.5: a fraction is a number, not NaN. */
  lemma NumberOfFraction()
    ensures NumberOfString("1.5") == Some(1.5)
  {
    var s := "1.5";
    NumberOfPlain(s);
    assert DecimalValue(s) == Some(1.5) by {
      assert DigitPrefixLength(s) == 1 by {
        assert DigitPrefixLength(s[1..]) == 0;
      }
      assert s[..1] == "1" && s[1..] == ".5" && ".5"[1..] == "5";
      assert DigitsValue("1") == 1 && DigitsValue("5") == 5 by {
        assert "1"[..0] == [] && "5"[..0] == [];
      }
    }
  }

  /** `Number("0x10")` is 16, but a sign before the prefix makes it NaN. */
  lemma NumberOfHex()
    ensures NumberOfString("0x10") == Some(16.0)
    ensures NumberOfString("-0x10") == None
  {
    var s := "0x10";
    TrimNoSurroundingSpace(s);
    assert s[2..] == "10";
    assert HexValue("10") == 16 by {
      assert "10"[..1] == "1";
      assert HexValue("1") == 1 by {
        assert "1"[..0] == [];
      }
    }
    var m := "-0x10";
    NumberOfPlain(m);
    assert m[1..] == s;
    assert DecimalValue(s) == None by {
      assert DigitPrefixLength(s) == 1 by {
        assert DigitPrefixLength(s[1..]) == 0;
      }
      assert s[1..] == "x10";
    }
  }

  /** `Number(v)`; `None` stands for NaN. */
  function ToNumber(v: JsValue): (r: Option<real>)
    ensures v.Num? ==> r == Some(v.x)
    ensures v.NaN? || v.Undefined? ==> r == None
  {
    match v
    case Undefined => None
    case Null => Some(0.0)
    case Bool(b) => Some(if b then 1.0 else 0.0)
    case Num(x) => Some(x)
    case NaN => None
    case Str(s) => NumberOfString(s)
    case Object => None
  }

  /** The global `isNaN(v)`, which converts its argument first. */
  predicate IsNaN(v: JsValue)
  {
    ToNumber(v).None?
  }

  /**
   * `parseInt(v as string)` on a query or path parameter that may be absent
   * (an absent one is read as the text "undefined", which is NaN).
   */
  function ParseParam(raw: Option<string>): (r: Option<int>)
    ensures raw.None? ==> r.None?
  {
    if raw.None? then None else ParseIntAuto(raw.value)
  }
}
