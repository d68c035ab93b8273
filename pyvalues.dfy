/** Dynamically typed values as they arrive from JSON request bodies, form
    arguments and stored records, with the parts of Python's semantics the
    validators depend on: `bool` is a subclass of `int`, `==` compares numbers
    across bool/int/float, and truthiness. */
module PyValues {

  /** A Python `bytes` element. */
  newtype byte = x: int | 0 <= x < 256

  datatype PyVal =
    | PNone
    | PBool(b: bool)
    | PInt(i: int)
    | PFloat(x: real)
    | PStr(s: string)
    | PBytes(bytes: seq<byte>)
    | PList(items: seq<PyVal>)

  /** `isinstance(v, int)`: true for ints and for bools. */
  predicate IsInt(v: PyVal) {
    v.PInt? || v.PBool?
  }

  /** The integer an int or bool stands for (True is 1). */
  function IntOf(v: PyVal): int
    requires IsInt(v)
  {
    if v.PBool? then (if v.b then 1 else 0) else v.i
  }

  predicate IsNumber(v: PyVal) {
    IsInt(v) || v.PFloat?
  }

  function NumOf(v: PyVal): real
    requires IsNumber(v)
  {
    if v.PFloat? then v.x else IntOf(v) as real
  }

  /** Python `a == b` for the value kinds modelled here. */
  predicate PyEq(a: PyVal, b: PyVal) {
    if IsNumber(a) && IsNumber(b) then NumOf(a) == NumOf(b)
    else if IsNumber(a) || IsNumber(b) then false
    else a == b
  }

  /** Python truthiness: `bool(v)`. */
  predicate Truthy(v: PyVal) {
    match v
    case PNone => false
    case PBool(b) => b
    case PInt(i) => i != 0
    case PFloat(x) => x != 0.0
    case PStr(s) => s != []
    case PBytes(bs) => bs != []
    case PList(items) => items != []
  }

  /** `v in collection` for a list of allowed values. */
  predicate PyIn(v: PyVal, collection: seq<PyVal>) {
    exists k :: 0 <= k < |collection| && PyEq(v, collection[k])
  }

  lemma PyEqTrueIsOne()
    ensures PyEq(PInt(1), PBool(true)) && PyEq(PFloat(0.0), PBool(false))
    ensures !PyEq(PStr("1"), PInt(1)) && !PyEq(PNone, PBool(false))
  {
  }
}
