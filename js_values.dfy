/** The values a JSON request body can carry, seen through the operations the
    handlers apply to them: truthiness (`!x`), `typeof x === 'string'`,
    `x.length` and `Number(x)`. */
module JsValues {

  /** The result of `Number(...)`: NaN or a finite number. */
  datatype Numeric = NaN | Finite(value: real)

  /** A JSON value. An array is observed only through its `length` and its
      string form (`String(arr)`, the comma-joined elements); a plain object
      only through its being an object. `Undefined` is an absent field. */
  datatype JsValue =
    | Undefined
    | Null
    | Bool(b: bool)
    | Num(x: real)
    | Str(s: string)
    | Arr(length: nat, text: string)
    | Obj

  /** JavaScript truthiness: `!v` is `!Truthy(v)`. */
  predicate Truthy(v: JsValue) {
    match v
    case Undefined => false
    case Null => false
    case Bool(b) => b
    case Num(x) => x != 0.0
    case Str(s) => s != []
    case Arr(_, _) => true
    case Obj => true
  }

  /** The falsy values of ECMA-262 ToBoolean (section 7.1.2) that a JSON
      body can hold: everything else, every array and object included, is
      truthy. */
  lemma FalsyValues(v: JsValue)
    ensures !Truthy(v) <==> v in {Undefined, Null, Bool(false), Num(0.0), Str("")}
  {
  }

  /** `Number(v)` (ToNumber of ECMA-262, section 7.1.4). Strings go through
      `parse`, the StringToNumber grammar, which this model leaves abstract;
      an array converts through its string form; a plain object's string form
      is "[object Object]", which is not numeric. */
  function ToNumber(v: JsValue, parse: string -> Numeric): Numeric {
    match v
    case Undefined => NaN
    case Null => Finite(0.0)
    case Bool(b) => if b then Finite(1.0) else Finite(0.0)
    case Num(x) => Finite(x)
    case Str(s) => parse(s)
    case Arr(_, text) => parse(text)
    case Obj => NaN
  }

  /** `isNaN(n) || n <= 0` read positively. */
  predicate IsPositive(n: Numeric) {
    n.Finite? && n.value > 0.0
  }
}
