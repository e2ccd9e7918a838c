/**
 * The JavaScript values a device-status snapshot is made of, as `JSON.parse`
 * produces them, and the three pieces of JavaScript semantics the widget
 * relies on: property lookup (`status["Unit"]`, `undefined` when absent),
 * strict equality with a boolean (`=== true`, `=== false`), the string
 * conversion a template literal applies (`${unit}`) and the SameValueZero
 * comparison that `Array.prototype.includes` uses.
 */
module JsValues {

  datatype Option<T> = None | Some(value: T)

  /** A JSON value. JSON numbers are modelled as integers. */
  datatype Value =
    | VNull
    | VBool(b: bool)
    | VNum(n: int)
    | VStr(s: string)
    | VArray(elems: seq<Value>)
    | VObject(fields: map<string, Value>)

  /** The own properties of a parsed JSON object. */
  type Fields = map<string, Value>

  /** `obj[name]`: `Some(v)` when the property exists, `None` for `undefined`. */
  function Get(fields: Fields, name: string): Option<Value>
  {
    if name in fields then Some(fields[name]) else None
  }

  /** `x === true`: a missing property or a non-boolean value is not `true`. */
  predicate IsTrue(x: Option<Value>)
  {
    x == Some(VBool(true))
  }

  /** `x === false`: a missing property or a non-boolean value is not `false`. */
  predicate IsFalse(x: Option<Value>)
  {
    x == Some(VBool(false))
  }

  /** Arrays and objects are compared by reference in JavaScript. */
  predicate IsComposite(v: Value)
  {
    v.VArray? || v.VObject?
  }

  /**
   * SameValueZero restricted to what a JSON parse can produce: primitives
   * and `undefined` compare by value; two arrays or objects that came out of
   * different places of the parsed text are different references, and a
   * reference never equals a primitive.
   */
  predicate SameValueZero(x: Option<Value>, y: Option<Value>)
  {
    match x
    case None => y.None?
    case Some(v) => !IsComposite(v) && x == y
  }

  // ---------------------------------------------------------------------
  // Decimal notation of integers (Number.prototype.toString for integers)

  function DigitChar(d: nat): (c: char)
    requires d < 10
    ensures '0' <= c <= '9'
  {
    "0123456789"[d]
  }

  function DigitValue(c: char): nat
    requires '0' <= c <= '9'
  {
    (c as int - '0' as int) as nat
  }

  predicate IsDigits(s: string)
  {
    forall i :: 0 <= i < |s| ==> '0' <= s[i] <= '9'
  }

  /** Shortest decimal digits of `n`: non-empty, no leading zero unless `n == 0`. */
  function NatToDecimal(n: nat): (r: string)
    ensures |r| > 0 && IsDigits(r)
    ensures r[0] == '0' ==> n == 0
    decreases n
  {
    if n < 10 then [DigitChar(n)] else NatToDecimal(n / 10) + [DigitChar(n % 10)]
  }

  /** Reads a string of decimal digits, most significant first. */
  function DecimalToNat(s: string): nat
    requires IsDigits(s)
    decreases |s|
  {
    if s == [] then 0 else 10 * DecimalToNat(s[..|s| - 1]) + DigitValue(s[|s| - 1])
  }

  /** The text `${n}` produces for an integer `n`. */
  function IntToDecimal(n: int): (r: string)
    ensures |r| > 0
  {
    if n < 0 then "-" + NatToDecimal(-n) else NatToDecimal(n)
  }

  /** Reads back what `IntToDecimal` writes: an optional minus sign and digits. */
  function DecimalToInt(s: string): int
  {
    if |s| > 0 && s[0] == '-' && IsDigits(s[1..]) then -(DecimalToNat(s[1..]) as int)
    else if IsDigits(s) then DecimalToNat(s)
    else 0
  }

  lemma {:induction false} NatDecimalRoundTrip(n: nat)
    ensures DecimalToNat(NatToDecimal(n)) == n
    decreases n
  {
    var r := NatToDecimal(n);
    if n < 10 {
      assert r == [DigitChar(n)];
      assert r[..0] == [];
    } else {
      NatDecimalRoundTrip(n / 10);
      assert r[..|r| - 1] == NatToDecimal(n / 10);
    }
  }

  /** The decimal rendering of a unit number loses nothing: it reads back exactly. */
  lemma IntDecimalRoundTrip(n: int)
    ensures DecimalToInt(IntToDecimal(n)) == n
  {
    if n < 0 {
      var m: nat := -n;
      var d := NatToDecimal(m);
      assert IntToDecimal(n) == "-" + d;
      NegativeRoundTrip(d);
      NatDecimalRoundTrip(m);
    } else {
      var m: nat := n;
      var d := NatToDecimal(m);
      assert IntToDecimal(n) == d;
      UnsignedRoundTrip(d);
      NatDecimalRoundTrip(m);
    }
  }

  lemma NegativeRoundTrip(d: string)
    requires IsDigits(d)
    ensures DecimalToInt("-" + d) == -(DecimalToNat(d) as int)
  {
    DropSign(d);
  }

  lemma UnsignedRoundTrip(d: string)
    requires |d| > 0 && IsDigits(d)
    ensures DecimalToInt(d) == DecimalToNat(d)
  {
    assert d[0] != '-';
  }

  lemma DropSign(d: string)
    ensures ("-" + d)[1..] == d && ("-" + d)[0] == '-'
  {
  }

  /** Different unit numbers give different text. */
  lemma IntToDecimalInjective(m: int, n: int)
    requires IntToDecimal(m) == IntToDecimal(n)
    ensures m == n
  {
    IntDecimalRoundTrip(m);
    IntDecimalRoundTrip(n);
  }

  // ---------------------------------------------------------------------
  // String conversion of a template literal substitution: `${x}`

  /** String(v) for a JSON value. */
  function ValueToString(v: Value): string
    decreases v, 1
  {
    match v
    case VNull => "null"
    case VBool(b) => if b then "true" else "false"
    case VNum(n) => IntToDecimal(n)
    case VStr(s) => s
    case VArray(es) => JoinElements(es)
    case VObject(_) => "[object Object]"
  }

  /** Array.prototype.join(","): a `null` element contributes the empty string. */
  function JoinElements(es: seq<Value>): string
    decreases es, 0
  {
    if es == [] then ""
    else
      var first := if es[0] == VNull then "" else ValueToString(es[0]);
      if |es| == 1 then first else first + "," + JoinElements(es[1..])
  }

  /** `${x}` where `x` may be `undefined`. */
  function DisplayString(x: Option<Value>): string
  {
    match x
    case None => "undefined"
    case Some(v) => ValueToString(v)
  }
}
