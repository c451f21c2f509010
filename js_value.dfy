/** JavaScript values as the modelled code sees them, and the few language
    rules (truthiness, strict equality, property lookup, number-to-text)
    that the rest of the model relies on. */
module JsValue {

  datatype Option<+T> = None | Some(value: T)

  /** How a JavaScript call ends: with a value, or by throwing (a TypeError
      in every case this model meets). */
  datatype Completion<+T> = Normal(value: T) | Throw

  /** A plain object's own enumerable properties. */
  type Record = map<string, Value>

  datatype Value =
    | Undefined
    | Null
    | Bool(b: bool)
    | Num(n: int)
    | Str(s: string)
    | Buffer(bytes: seq<bv8>)
    | Arr(elems: seq<Value>)
    | Obj(fields: map<string, Value>)
    | Error(name: string, message: string)
  {
    /** `typeof` is neither "object" nor "function". */
    predicate IsPrimitive() {
      Undefined? || Null? || Bool? || Num? || Str?
    }

    /** JavaScript truthiness; every object, an empty Buffer or array too, is truthy. */
    predicate Truthy() {
      match this
      case Undefined => false
      case Null => false
      case Bool(b) => b
      case Num(n) => n != 0
      case Str(s) => s != ""
      case _ => true
    }
  }

  /** A value for which `Array.isArray` is false. */
  type NonArrayValue = v: Value | !v.Arr? witness Undefined

  /** `a === b`. Primitives compare by kind and payload. Objects compare by
      reference, and references are not modelled: an object-valued operand
      is never strictly equal here, not even to itself. */
  predicate StrictEquals(a: Value, b: Value) {
    a.IsPrimitive() && a == b
  }

  /** `obj[key]`: a missing own property reads as undefined. */
  function Get(r: Record, key: string): (v: Value)
    ensures key !in r ==> v == Undefined
    ensures key in r ==> v == r[key]
  {
    if key in r then r[key] else Undefined
  }

  /** The property name used by `obj[k]` when `k` may be undefined: an
      undefined key is coerced to the string "undefined". */
  function PropertyKey(k: Option<string>): string {
    match k
    case Some(s) => s
    case None => "undefined"
  }

  /** Optional strings that JavaScript would treat as truthy. */
  predicate PresentText(k: Option<string>) {
    k.Some? && k.value != ""
  }

  function DigitChar(d: nat): (c: char)
    requires d < 10
    ensures '0' <= c <= '9'
  {
    ('0' as int + d) as char
  }

  /** Decimal text of a natural number, as `String(n)` prints it. */
  function Decimal(n: nat): (s: string)
    ensures |s| >= 1
    ensures n >= 10 ==> |s| >= 2
    ensures forall i :: 0 <= i < |s| ==> '0' <= s[i] <= '9'
  {
    if n < 10 then [DigitChar(n)] else Decimal(n / 10) + [DigitChar(n % 10)]
  }

  /** Different numbers print differently. */
  lemma {:induction false} DecimalInjective(a: nat, b: nat)
    requires Decimal(a) == Decimal(b)
    ensures a == b
  {
    if a < 10 && b < 10 {
      assert DigitChar(a) == Decimal(a)[0] == Decimal(b)[0] == DigitChar(b);
    } else if a >= 10 && b >= 10 {
      var da, db := Decimal(a), Decimal(b);
      assert da[..|da| - 1] == Decimal(a / 10);
      assert db[..|db| - 1] == Decimal(b / 10);
      DecimalInjective(a / 10, b / 10);
      assert DigitChar(a % 10) == da[|da| - 1] == db[|db| - 1] == DigitChar(b % 10);
    }
  }

  /** `String(n)` for an integer. */
  function NumberText(n: int): string {
    if n < 0 then "-" + Decimal(-n) else Decimal(n)
  }
}
