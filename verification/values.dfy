/**
 * Run-time values of the IR interpreter: Python ints, bools and one-character
 * strings, plus the absorbing `Uninit` marker held by never-written storage.
 */
module Values {
  import opened Text

  datatype Value = IntV(i: int) | BoolV(b: bool) | CharV(c: char) | Uninit

  /** The Python exception a step raises; the model stops there, as the interpreter does. */
  datatype Fault =
    | TypeError        // unsupported operand types, bad index type, attribute name None
    | KeyError         // a variable or label missing from `globals`/`vars`/`labels`
    | IndexError       // pop from an empty stack, an empty register bank
    | ZeroDivision     // `//` or `%` by zero
    | AttributeError   // an attribute the instruction object does not have
    | UnboundLocal     // `_prepare_globals` over an empty listing
    | ValueError       // an incomplete printf-style format (`"%" % x`)
    | Unrepresentable  // Python would build a string of another length, outside this value domain

  /** Python truthiness: zero, `False` and `Uninit` are false; any one-character string is true. */
  predicate Truthy(v: Value) {
    match v
    case IntV(i) => i != 0
    case BoolV(b) => b
    case CharV(_) => true
    case Uninit => false
  }

  /** Ints and bools take part in arithmetic (a Python bool is an int). */
  predicate IsNumber(v: Value) {
    v.IntV? || v.BoolV?
  }

  function AsNumber(v: Value): int
    requires IsNumber(v)
  {
    match v
    case IntV(i) => i
    case BoolV(b) => if b then 1 else 0
  }

  /** Python's `str(value)`, the text `print` writes; `Uninit` renders as `XXXX`. */
  function Show(v: Value): (s: string)
    ensures |s| > 0
    ensures v.Uninit? <==> s == "XXXX"
  {
    match v
    case IntV(i) => IntToString(i)
    case BoolV(b) => if b then "True" else "False"
    case CharV(c) => [c]
    case Uninit => "XXXX"
  }
}
