/**
 * What the interpreter's binary and unary handlers compute: Python operators
 * on ints, bools and one-character strings, and the `Uninitialized` marker
 * whose dunder methods swallow every operand (uc/uc_interpreter.py).
 */
module Ops {
  import opened Wrappers
  import opened Values
  import opened IR

  /** Python's `a // b` on ints: the quotient rounded toward negative infinity. */
  function FloorDiv(a: int, b: int): (q: int)
    requires b != 0
    ensures b > 0 ==> q * b <= a < q * b + b
    ensures b < 0 ==> q * b + b < a <= q * b
  {
    if b > 0 || a % b == 0 then a / b else a / b - 1
  }

  /** Python's `a % b` on ints: the remainder takes the sign of the divisor. */
  function PyMod(a: int, b: int): (r: int)
    requires b != 0
    ensures a == FloorDiv(a, b) * b + r
    ensures b > 0 ==> 0 <= r < b
    ensures b < 0 ==> b < r <= 0
  {
    if b > 0 || a % b == 0 then a % b else a % b + b
  }

  function Num(n: int): Value {
    IntV(n)
  }

  /** `x + y`. Two characters concatenate into a two-character string. */
  function AddValues(x: Value, y: Value): Result<Value, Fault> {
    if x.Uninit? || y.Uninit? then Success(Uninit)
    else if IsNumber(x) && IsNumber(y) then Success(Num(AsNumber(x) + AsNumber(y)))
    else if x.CharV? && y.CharV? then Failure(Unrepresentable)
    else Failure(TypeError)
  }

  /** `x - y`. */
  function SubValues(x: Value, y: Value): Result<Value, Fault> {
    if x.Uninit? || y.Uninit? then Success(Uninit)
    else if IsNumber(x) && IsNumber(y) then Success(Num(AsNumber(x) - AsNumber(y)))
    else Failure(TypeError)
  }

  /** `x * y`. A character times n repeats it: one copy is still a character. */
  function MulValues(x: Value, y: Value): Result<Value, Fault> {
    if x.Uninit? || y.Uninit? then Success(Uninit)
    else if IsNumber(x) && IsNumber(y) then Success(Num(AsNumber(x) * AsNumber(y)))
    else if x.CharV? && IsNumber(y) then (if AsNumber(y) == 1 then Success(x) else Failure(Unrepresentable))
    else if IsNumber(x) && y.CharV? then (if AsNumber(x) == 1 then Success(y) else Failure(Unrepresentable))
    else Failure(TypeError)
  }

  /**
   * `x // y` as written: `Uninitialized` defines no `__floordiv__` nor
   * `__rfloordiv__`, so an uninitialised operand raises TypeError.
   */
  function FloorDivValuesAsWritten(x: Value, y: Value): (r: Result<Value, Fault>)
    ensures x.Uninit? || y.Uninit? ==> r == Failure(TypeError)
    ensures IsNumber(x) && IsNumber(y) && AsNumber(y) == 0 ==> r == Failure(ZeroDivision)
  {
    if IsNumber(x) && IsNumber(y) then
      if AsNumber(y) == 0 then Failure(ZeroDivision) else Success(Num(FloorDiv(AsNumber(x), AsNumber(y))))
    else Failure(TypeError)
  }

  /** `x // y` with the marker absorbing, as for every other arithmetic operator. */
  function FloorDivValues(x: Value, y: Value): (r: Result<Value, Fault>)
    ensures x.Uninit? || y.Uninit? ==> r == Success(Uninit)
    ensures !x.Uninit? && !y.Uninit? ==> r == FloorDivValuesAsWritten(x, y)
  {
    if x.Uninit? || y.Uninit? then Success(Uninit) else FloorDivValuesAsWritten(x, y)
  }

  /**
   * `x % y`. A string left operand means printf-style formatting, which fails on
   * any argument (even the marker) before the marker's `__rmod__` is consulted.
   */
  function ModValues(x: Value, y: Value): Result<Value, Fault> {
    if x.Uninit? then Success(Uninit)
    else if x.CharV? then (if x.c == '%' then Failure(ValueError) else Failure(TypeError))
    else if y.Uninit? then Success(Uninit)
    else if y.CharV? then Failure(TypeError)
    else if AsNumber(y) == 0 then Failure(ZeroDivision)
    else Success(Num(PyMod(AsNumber(x), AsNumber(y))))
  }

  /** Ordering of two defined operands: numbers numerically, characters by code point. */
  function Order(op: BinOp, a: int, b: int): bool
    requires op in {Lt, Le, Gt, Ge}
  {
    match op
    case Lt => a < b
    case Le => a <= b
    case Gt => a > b
    case Ge => a >= b
  }

  /** `<`, `<=`, `>`, `>=`: false whenever the marker takes part. */
  function CompareValues(op: BinOp, x: Value, y: Value): Result<Value, Fault>
    requires op in {Lt, Le, Gt, Ge}
  {
    if x.Uninit? || y.Uninit? then Success(BoolV(false))
    else if IsNumber(x) && IsNumber(y) then Success(BoolV(Order(op, AsNumber(x), AsNumber(y))))
    else if x.CharV? && y.CharV? then Success(BoolV(Order(op, x.c as int, y.c as int)))
    else Failure(TypeError)
  }

  /** Python `==` on two defined values: a number never equals a string. */
  predicate PyEq(x: Value, y: Value)
    requires !x.Uninit? && !y.Uninit?
  {
    if IsNumber(x) && IsNumber(y) then AsNumber(x) == AsNumber(y)
    else x.CharV? && y.CharV? && x.c == y.c
  }

  /**
   * What a binary instruction stores in its target: the arithmetic operators
   * are swallowed by the marker, every comparison involving the marker is false,
   * and `and`/`or` return one of their operands, chosen by truthiness.
   */
  function Apply(op: BinOp, x: Value, y: Value): (r: Result<Value, Fault>)
    ensures op in {Add, Sub, Mul, Div} && (x.Uninit? || y.Uninit?) ==> r == Success(Uninit)
    ensures op == Mod && (x.Uninit? || (IsNumber(x) && y.Uninit?)) ==> r == Success(Uninit)
    ensures op in {Lt, Le, Gt, Ge, Eq, Ne} && (x.Uninit? || y.Uninit?) ==> r == Success(BoolV(false))
    ensures op in {Lt, Le, Gt, Ge, Eq, Ne} && r.Success? ==> r.value.BoolV?
    ensures op in {And, Or} ==> r.Success? && (r.value == x || r.value == y)
    ensures op == And ==> (Truthy(r.value) <==> Truthy(x) && Truthy(y))
    ensures op == Or ==> (Truthy(r.value) <==> Truthy(x) || Truthy(y))
    ensures op in {Add, Sub, Mul} && IsNumber(x) && IsNumber(y) ==> r.Success? && r.value.IntV?
    ensures op in {Div, Mod} && IsNumber(x) && IsNumber(y) ==> (r.Success? <==> AsNumber(y) != 0)
  {
    match op
    case Add => AddValues(x, y)
    case Sub => SubValues(x, y)
    case Mul => MulValues(x, y)
    case Div => FloorDivValues(x, y)
    case Mod => ModValues(x, y)
    case Lt => CompareValues(op, x, y)
    case Le => CompareValues(op, x, y)
    case Gt => CompareValues(op, x, y)
    case Ge => CompareValues(op, x, y)
    case Eq => Success(BoolV(!x.Uninit? && !y.Uninit? && PyEq(x, y)))
    case Ne => Success(BoolV(!x.Uninit? && !y.Uninit? && !PyEq(x, y)))
    case And => Success(if Truthy(x) then y else x)
    case Or => Success(if Truthy(x) then x else y)
  }

  /** `not x`: the negated truthiness, so `not Uninit` is True. */
  function NotValue(x: Value): (r: Value)
    ensures r.BoolV? && (Truthy(r) <==> !Truthy(x))
    ensures x.Uninit? ==> r == BoolV(true)
  {
    BoolV(!Truthy(x))
  }
}
