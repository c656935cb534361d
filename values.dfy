/** The Python values a loaded configuration entry can hold, as far as the
    configuration validator can tell them apart: it asks whether a value is
    an `int` (which, in Python, includes `bool`), whether it is a `list`, and
    compares values with integer constants. */
module PyValues {

  datatype Value =
    | Int(i: int)               // int
    | Bool(b: bool)             // bool: isinstance(True, int) holds in Python
    | Float(x: real)            // a finite float, taken as its exact value
    | List(items: seq<Value>)   // list
    | Other                     // str, None, dict, tuple, date, ...: none of them compares with a number

  /** `isinstance(v, int)`: true of ints and of bools. */
  predicate IsInt(v: Value) {
    v.Int? || v.Bool?
  }

  /** The values for which `v > 24`, `v < 0` and `v == 0` are all defined. */
  predicate IsNumber(v: Value) {
    v.Int? || v.Bool? || v.Float?
  }

  /** The number a numeric value compares as (True is 1, False is 0); Python
      compares ints with floats exactly, as reals do. */
  function Num(v: Value): real
    requires IsNumber(v)
  {
    match v
    case Int(i) => i as real
    case Bool(b) => if b then 1.0 else 0.0
    case Float(x) => x
  }
}
