/**
 * The expression and declaration rules of the code generator (uc/uc_code.py):
 * each rule maps an AST node and the builder state to the instructions it
 * appends to the current block, the variable holding its value, and the new
 * builder state.
 */
module CodeGen {
  import opened Wrappers
  import opened Values
  import opened IR
  import Blocks
  import Interp

  /** A resolved uC type: its name, its `sizeof()`, and whether it is a `PrimaryType`. */
  datatype UcType = UcType(name: string, size: Pos, primary: bool)

  const IntType: UcType := UcType("int", 1, true)

  /** The part of the typed AST these rules read. */
  datatype Expr =
    | Constant(ty: UcType, value: Value)
    | StringConstant(ty: UcType, text: string)
    | Id(ty: UcType, name: string, isGlobal: bool)
    | BinaryOp(op: string, ty: UcType, left: Expr, right: Expr)
    | RelationOp(op: string, ty: UcType, left: Expr, right: Expr)
    | UnaryOp(op: string, ty: UcType, expr: Expr)
    | AddressOp(op: string, ty: UcType, expr: Expr)
    | ArrayRef(ty: UcType, arr: Expr, index: Expr)
    | Assignment(ty: UcType, left: Expr, right: Expr)

  function Tag(ty: UcType): TypeTag {
    Some(ty.name)
  }

  /** The `binary_op` table; an operator missing from it raises KeyError. */
  function BinaryOpFor(op: string): (r: Result<BinOp, Fault>)
    ensures r.Failure? ==> r.error == KeyError
    ensures r.Success? <==> op in {"+", "-", "*", "/", "%", "<", "<=", ">", ">=", "==", "!=", "&&", "||"}
  {
    match op
    case "+" => Success(Add)  case "-" => Success(Sub)  case "*" => Success(Mul)
    case "/" => Success(Div)  case "%" => Success(Mod)
    case "<" => Success(Lt)   case "<=" => Success(Le)  case ">" => Success(Gt)  case ">=" => Success(Ge)
    case "==" => Success(Eq)  case "!=" => Success(Ne)
    case "&&" => Success(And) case "||" => Success(Or)
    case _ => Failure(KeyError)
  }

  // ---------------------------------------------------------------------------
  // The generator's cursor

  /**
   * The generator's builder state: the program, the function being generated,
   * and which of its blocks is `current`.
   */
  datatype Cursor = Cursor(glob: Blocks.GlobalBlock, fn: Blocks.FunctionBlock, cur: nat)

  /** The current block exists, and the literal cache holds only text constants. */
  predicate Valid(c: Cursor) {
    && c.cur < |c.fn.blocks|
    && forall key :: key in c.glob.consts ==> c.glob.consts[key].TextVar?
  }

  /** The current block's instructions. */
  function Code(c: Cursor): seq<Instr>
    requires Valid(c)
  {
    c.fn.blocks[c.cur].instr
  }

  function NextTemp(c: Cursor): nat {
    Blocks.NextTemp(c.fn)
  }

  /** `current.new_temp()`. */
  function FreshTemp(c: Cursor): (r: (Cursor, Variable))
    requires Valid(c)
    ensures Valid(r.0) && r.0.cur == c.cur && r.0.glob == c.glob && r.0.fn.blocks == c.fn.blocks
    ensures r.0.fn == c.fn.(counter := r.0.fn.counter)
    ensures r.1 == TempVar(NextTemp(c)) && NextTemp(r.0) == NextTemp(c) + 1
  {
    var (f, t) := Blocks.NewTemp(c.fn);
    (c.(fn := f), t)
  }

  /** `current.append(instr)`. */
  function Emit(c: Cursor, i: Instr): (r: Cursor)
    requires Valid(c)
    ensures Valid(r) && Code(r) == Code(c) + [i] && NextTemp(r) == NextTemp(c)
    ensures r.cur == c.cur && r.glob == c.glob && |r.fn.blocks| == |c.fn.blocks|
    ensures r.fn.counter == c.fn.counter && r.fn.rettype == c.fn.rettype
    ensures r.fn.funcname == c.fn.funcname && r.fn.params == c.fn.params
    ensures r.fn.blocks[c.cur].name == c.fn.blocks[c.cur].name
    ensures forall b :: 0 <= b < |c.fn.blocks| && b != c.cur ==> r.fn.blocks[b] == c.fn.blocks[b]
  {
    c.(fn := c.fn.(blocks := c.fn.blocks[c.cur := Blocks.Append(c.fn.blocks[c.cur], i)]))
  }

  /** `_varname`: a global identifier names a `GlobalVariable`, any other a `NamedVariable`. */
  function VarName(name: string, isGlobal: bool): (v: Variable)
    ensures v.GlobalVar? <==> isGlobal
    ensures v.NamedVar? <==> !isGlobal
    ensures !v.TempVar?
  {
    if isGlobal then GlobalVar(name) else NamedVar(name)
  }

  /**
   * `c2` extends `c`: same current block, whose code only grew at the end;
   * other blocks, the function's header, and the data and function lists are
   * untouched; the temp counter did not go back.
   */
  ghost predicate Grows(c: Cursor, c2: Cursor) {
    && Valid(c) && Valid(c2)
    && c2.cur == c.cur
    && c2.fn.blocks == c.fn.blocks[c.cur := c2.fn.blocks[c.cur]]
    && c2.fn.blocks[c.cur].name == c.fn.blocks[c.cur].name
    && |Code(c)| <= |Code(c2)| && Code(c2)[..|Code(c)|] == Code(c)
    && NextTemp(c) <= NextTemp(c2)
    && c2.fn.rettype == c.fn.rettype && c2.fn.funcname == c.fn.funcname && c2.fn.params == c.fn.params
    && c2.glob.data == c.glob.data && c2.glob.functions == c.glob.functions
  }

  /** What was appended to the current block between `c` and `c2`. */
  function Emitted(c: Cursor, c2: Cursor): seq<Instr>
    requires Valid(c) && Valid(c2) && |Code(c)| <= |Code(c2)|
  {
    Code(c2)[|Code(c)|..]
  }

  /** Everything appended between `c` and `c2` mentions only temporaries issued in between. */
  ghost predicate FreshBetween(c: Cursor, c2: Cursor) {
    Grows(c, c2) && Blocks.TempsWithin(Emitted(c, c2), NextTemp(c), NextTemp(c2))
  }

  lemma GrowsTrans(c1: Cursor, c2: Cursor, c3: Cursor)
    requires Grows(c1, c2) && Grows(c2, c3)
    ensures Grows(c1, c3)
    ensures Emitted(c1, c3) == Emitted(c1, c2) + Emitted(c2, c3)
  {
    assert Code(c3)[..|Code(c2)|][..|Code(c1)|] == Code(c3)[..|Code(c1)|];
  }

  lemma FreshTrans(c1: Cursor, c2: Cursor, c3: Cursor)
    requires FreshBetween(c1, c2) && FreshBetween(c2, c3)
    ensures FreshBetween(c1, c3)
  {
    GrowsTrans(c1, c2, c3);
    Blocks.TempsWithinWiden(Emitted(c1, c2), NextTemp(c1), NextTemp(c2), NextTemp(c1), NextTemp(c3));
    Blocks.TempsWithinWiden(Emitted(c2, c3), NextTemp(c2), NextTemp(c3), NextTemp(c1), NextTemp(c3));
    Blocks.TempsWithinConcat(Emitted(c1, c2), Emitted(c2, c3), NextTemp(c1), NextTemp(c3));
  }

  /** Issuing a temporary then appending one instruction that mentions only temporaries from `lo` on. */
  lemma FreshAppend(c: Cursor, c1: Cursor, i: Instr, lo: nat)
    requires FreshBetween(c, c1) && lo == NextTemp(c)
    requires forall v :: v in Blocks.VarsOf(i) && v.TempVar? ==> lo <= v.n < NextTemp(c1)
    ensures FreshBetween(c, Emit(c1, i))
  {
    var c2 := Emit(c1, i);
    assert Grows(c1, c2) by {
      assert Code(c2)[..|Code(c1)|] == Code(c1);
    }
    assert Emitted(c1, c2) == [i];
    GrowsTrans(c, c1, c2);
    Blocks.TempsWithinConcat(Emitted(c, c1), [i], NextTemp(c), NextTemp(c2));
  }

  lemma FreshTempGrows(c: Cursor)
    requires Valid(c)
    ensures FreshBetween(c, FreshTemp(c).0)
  {
    assert Emitted(c, FreshTemp(c).0) == [];
  }

  lemma FreshRefl(c: Cursor)
    requires Valid(c)
    ensures FreshBetween(c, c)
  {
    assert Emitted(c, c) == [];
  }

  // ---------------------------------------------------------------------------
  // The rules

  /** A generator result: the new cursor and the variable holding the node's value. */
  type Gen = (Cursor, Variable)

  /** Fresh result: a temporary issued by this very rule, or a text constant. */
  ghost predicate Produced(c: Cursor, r: Gen) {
    && FreshBetween(c, r.0)
    && (r.1.TempVar? ==> NextTemp(c) <= r.1.n < NextTemp(r.0))
  }

  /**
   * Issuing the next temporary and appending one instruction that writes it:
   * the closing step of every rule that computes a value.
   */
  function Finish(c: Cursor, i: Instr): (r: Gen)
    requires Valid(c)
    ensures Valid(r.0) && r.1 == TempVar(NextTemp(c)) && NextTemp(r.0) == NextTemp(c) + 1
    ensures Code(r.0) == Code(c) + [i] && r.0.glob == c.glob
  {
    var (c1, t) := FreshTemp(c);
    (Emit(c1, i), t)
  }

  /** A closing instruction over the rule's own temporaries keeps the rule's output fresh. */
  lemma FinishFresh(c0: Cursor, c: Cursor, i: Instr)
    requires FreshBetween(c0, c)
    requires forall v :: v in Blocks.VarsOf(i) && v.TempVar? ==> NextTemp(c0) <= v.n <= NextTemp(c)
    ensures Produced(c0, Finish(c, i))
  {
    var (c1, t) := FreshTemp(c);
    FreshTempGrows(c);
    FreshTrans(c0, c, c1);
    FreshAppend(c0, c1, i, NextTemp(c0));
  }

  /**
   * `visit(e, ref=...)`. Handlers without a `ref` parameter reject a `ref`
   * request with TypeError; an operator missing from its table raises KeyError.
   * Every rule appends only code over temporaries it issued itself, and every
   * node but a string constant or an assignment yields a fresh temporary.
   */
  function Generate(e: Expr, ref: bool, c: Cursor): (r: Result<Gen, Fault>)
    requires Valid(c)
    ensures r.Success? ==> Produced(c, r.value)
    ensures r.Success? && e.StringConstant? ==> r.value.1.TextVar?
    ensures r.Success? && !e.StringConstant? && !e.Assignment? ==> r.value.1.TempVar?
    ensures ref && (e.Constant? || e.StringConstant? || e.BinaryOp? || e.RelationOp? || e.UnaryOp? || e.Assignment?) ==>
      r == Failure(TypeError)
    decreases e, 1
  {
    match e
    case Constant(ty, value) =>
      if ref then Failure(TypeError)
      else
        FinishFresh(c, c, LiteralInstr(Tag(ty), value, TempVar(NextTemp(c))));
        Success(NewConstant(c, Tag(ty), value))
    case StringConstant(ty, text) =>
      if ref then Failure(TypeError) else GenerateString(ty, text, c)
    case Id(ty, name, isGlobal) => GenerateId(ty, name, isGlobal, ref, c)
    case BinaryOp(_, _, _, _) =>
      if ref then Failure(TypeError) else GenerateBinary(e, c)
    case RelationOp(_, _, _, _) =>
      if ref then Failure(TypeError) else GenerateBinary(e, c)
    case UnaryOp(_, _, _) =>
      if ref then Failure(TypeError) else GenerateUnary(e, c)
    case AddressOp(_, _, _) => GenerateAddress(e, ref, c)
    case ArrayRef(_, _, _) => GenerateArrayRef(e, ref, c)
    case Assignment(_, _, _) =>
      if ref then Failure(TypeError) else GenerateAssignment(e, c)
  }

  /** `_new_constant`: a fresh temporary and one `literal` into it, never shared. */
  function NewConstant(c: Cursor, ty: TypeTag, value: Value): (r: Gen)
    requires Valid(c)
    ensures Valid(r.0) && r.1 == TempVar(NextTemp(c)) && NextTemp(r.0) == NextTemp(c) + 1
    ensures Code(r.0) == Code(c) + [LiteralInstr(ty, value, TempVar(NextTemp(c)))]
  {
    Finish(c, LiteralInstr(ty, value, TempVar(NextTemp(c))))
  }

  /** `visit_StringConstant`: no code, the deduplicated text constant. */
  function GenerateString(ty: UcType, text: string, c: Cursor): (r: Result<Gen, Fault>)
    requires Valid(c)
    ensures r.Success? && Produced(c, r.value) && r.value.1.TextVar?
    ensures r.value.0 == c.(glob := r.value.0.glob)
    ensures (ty.name, text) in c.glob.consts ==> r.value == (c, c.glob.consts[(ty.name, text)])
    ensures (ty.name, text) !in c.glob.consts ==>
      |r.value.0.glob.text| == |c.glob.text| + 1 && r.value.0.glob.text[|c.glob.text|] == MkGlobal(ty.name, r.value.1, Some(text))
    ensures (ty.name, text) in r.value.0.glob.consts && r.value.0.glob.consts[(ty.name, text)] == r.value.1
  {
    var (g, v) := Blocks.NewLiteral(c.glob, ty.name, text);
    FreshRefl(c);
    assert Emitted(c, c.(glob := g)) == [];
    Success((c.(glob := g), v))
  }

  /** `visit_ID`: one `load` (value) or `get` (address) into a fresh temporary. */
  function GenerateId(ty: UcType, name: string, isGlobal: bool, ref: bool, c: Cursor): (r: Result<Gen, Fault>)
    requires Valid(c)
    ensures r.Success? && Produced(c, r.value) && r.value.1 == TempVar(NextTemp(c))
  {
    var t := TempVar(NextTemp(c));
    var v := VarName(name, isGlobal);
    var i := if ref then GetInstr(Tag(ty), v, t) else LoadInstr(Tag(ty), v, t);
    FinishFresh(c, c, i);
    Success(Finish(c, i))
  }

  /** `visit_UnaryOp`: the operand, then one `unary_op` instruction into a fresh temporary. */
  function GenerateUnary(e: Expr, c: Cursor): (r: Result<Gen, Fault>)
    requires Valid(c) && e.UnaryOp?
    ensures r.Success? ==> Produced(c, r.value) && r.value.1.TempVar?
    decreases e, 0
  {
    var x :- Generate(e.expr, false, c);
    if e.op != "!" then Failure(KeyError)
    else
      var i := NotInstr(Tag(e.ty), x.1, TempVar(NextTemp(x.0)));
      FinishFresh(c, x.0, i);
      Success(Finish(x.0, i))
  }

  /**
   * `visit_AddressOp`: the operand as an address; `&` or a `ref` request
   * returns it, otherwise `literal 0` and `elem address, zero` into a fresh temporary.
   */
  function GenerateAddress(e: Expr, ref: bool, c: Cursor): (r: Result<Gen, Fault>)
    requires Valid(c) && e.AddressOp?
    ensures r.Success? ==> Produced(c, r.value) && r.value.1.TempVar?
    decreases e, 0
  {
    var x :- Generate(e.expr, true, c);
    if e.op == "&" || ref then Success(x)
    else
      var (c1, zero) := NewConstant(x.0, Some("int"), IntV(0));
      FinishFresh(x.0, x.0, LiteralInstr(Some("int"), IntV(0), zero));
      FreshTrans(c, x.0, c1);
      var i := ElemInstr(Tag(e.ty), x.1, zero, TempVar(NextTemp(c1)));
      FinishFresh(c, c1, i);
      Success(Finish(c1, i))
  }

  /**
   * `visit_ArrayRef`: the array's value, the index, the scaled offset, then an
   * `add` (address) or an `elem` (value) into a fresh temporary.
   */
  function GenerateArrayRef(e: Expr, ref: bool, c: Cursor): (r: Result<Gen, Fault>)
    requires Valid(c) && e.ArrayRef?
    ensures r.Success? ==> Produced(c, r.value) && r.value.1.TempVar?
    decreases e, 0
  {
    var a :- Generate(e.arr, false, c);
    var x :- Generate(e.index, false, a.0);
    FreshTrans(c, a.0, x.0);
    Success(Address(c, x.0, a.1, x.1, e.ty, ref))
  }

  /**
   * The rest of `visit_ArrayRef` once both operands are computed: the scaled
   * offset, then `add` or `elem` into a fresh temporary.
   */
  function Address(c0: Cursor, c: Cursor, base: Variable, index: Variable, ty: UcType, ref: bool): (r: Gen)
    requires FreshBetween(c0, c)
    requires base.TempVar? ==> NextTemp(c0) <= base.n < NextTemp(c)
    requires index.TempVar? ==> NextTemp(c0) <= index.n < NextTemp(c)
    ensures Produced(c0, r) && r.1.TempVar?
  {
    var (c1, offset) := ScaleIndex(c, index, ty.size);
    ScaleIndexFresh(c0, c, index, ty.size);
    var t := TempVar(NextTemp(c1));
    var i := if ref || !ty.primary then BinaryInstr(Add, Tag(ty), base, offset, t) else ElemInstr(Tag(ty), base, offset, t);
    FinishFresh(c0, c1, i);
    Finish(c1, i)
  }

  /**
   * `visit_Assignment` with the store-through-address corrected: the left
   * operand's value is stored into the identifier, or through the address the
   * right operand yields; the value's variable is the result.
   */
  function GenerateAssignment(e: Expr, c: Cursor): (r: Result<Gen, Fault>)
    requires Valid(c) && e.Assignment?
    ensures r.Success? ==> Produced(c, r.value)
    ensures r.Success? ==> Generate(e.left, false, c).Success? && r.value.1 == Generate(e.left, false, c).value.1
    decreases e, 0
  {
    var value :- Generate(e.left, false, c);
    if e.right.Id? then
      var i := StoreInstr(Tag(e.ty), value.1, VarName(e.right.name, e.right.isGlobal));
      FreshAppend(c, value.0, i, NextTemp(c));
      Success((Emit(value.0, i), value.1))
    else
      var target :- Generate(e.right, true, value.0);
      var i := StoreInstr(Tag(e.ty), value.1, target.1);
      FreshTrans(c, value.0, target.0);
      FreshAppend(c, target.0, i, NextTemp(c));
      Success((Emit(target.0, i), value.1))
  }

  /**
   * The corrected rule ends with one `store` of the value: into the identifier
   * itself, or through the address the target expression yields.
   */
  lemma AssignmentShape(e: Expr, c: Cursor)
    requires Valid(c) && e.Assignment? && GenerateAssignment(e, c).Success?
    ensures var value := Generate(e.left, false, c).value;
      var r := GenerateAssignment(e, c).value;
      && Valid(r.0)
      && (e.right.Id? ==>
            Code(r.0) == Code(value.0) + [StoreInstr(Tag(e.ty), value.1, VarName(e.right.name, e.right.isGlobal))])
      && (!e.right.Id? ==>
            var target := Generate(e.right, true, value.0).value;
            Grows(c, target.0) && Code(r.0) == Code(target.0) + [StoreInstr(Tag(e.ty), value.1, target.1)])
  {
    var value := Generate(e.left, false, c).value;
    if !e.right.Id? {
      FreshTrans(c, value.0, Generate(e.right, true, value.0).value.0);
    }
  }

  /**
   * `visit_Assignment` as written: through any target but a plain identifier
   * it appends `literal 0` and `elem value, zero, target`, an instruction that
   * only reads memory and writes the target register.
   */
  function GenerateAssignmentAsWritten(e: Expr, c: Cursor): (r: Result<Gen, Fault>)
    requires Valid(c) && e.Assignment?
    ensures r.Success? ==> Generate(e.left, false, c).Success? && r.value.1 == Generate(e.left, false, c).value.1
    ensures r.Success? ==> Valid(r.value.0)
  {
    var value :- Generate(e.left, false, c);
    if e.right.Id? then
      Success((Emit(value.0, StoreInstr(Tag(e.ty), value.1, VarName(e.right.name, e.right.isGlobal))), value.1))
    else
      var target :- Generate(e.right, true, value.0);
      var (c1, zero) := NewConstant(target.0, Some("int"), IntV(0));
      Success((Emit(c1, ElemInstr(Tag(e.ty), value.1, zero, target.1)), value.1))
  }

  /**
   * The as-written rule through an address ends with `literal 0` and an `elem`
   * that names the value as its base and the address as its destination.
   */
  lemma AssignmentAsWrittenShape(e: Expr, c: Cursor)
    requires Valid(c) && e.Assignment? && !e.right.Id? && GenerateAssignmentAsWritten(e, c).Success?
    ensures var value := Generate(e.left, false, c).value;
      var target := Generate(e.right, true, value.0).value;
      var r := GenerateAssignmentAsWritten(e, c).value;
      && Grows(c, target.0) && Valid(r.0)
      && Code(r.0) == Code(target.0) + [
           LiteralInstr(Some("int"), IntV(0), TempVar(NextTemp(target.0))),
           ElemInstr(Tag(e.ty), value.1, TempVar(NextTemp(target.0)), target.1)]
  {
    var value := Generate(e.left, false, c).value;
    var target := Generate(e.right, true, value.0).value;
    FreshTrans(c, value.0, target.0);
  }

  /** `visit_BinaryOp`: left operand, right operand, then one instruction into a fresh temporary. */
  function GenerateBinary(e: Expr, c: Cursor): (r: Result<Gen, Fault>)
    requires Valid(c) && (e.BinaryOp? || e.RelationOp?)
    ensures r.Success? ==> Produced(c, r.value) && r.value.1.TempVar?
    decreases e, 0
  {
    var l :- Generate(e.left, false, c);
    var rr :- Generate(e.right, false, l.0);
    var bop :- BinaryOpFor(e.op);
    FreshTrans(c, l.0, rr.0);
    Success(Combine(c, rr.0, bop, e.ty, l.1, rr.1))
  }

  /** The closing instruction of `visit_BinaryOp`: `bop left, right` into a fresh temporary. */
  function Combine(c0: Cursor, c: Cursor, bop: BinOp, ty: UcType, left: Variable, right: Variable): (r: Gen)
    requires FreshBetween(c0, c)
    requires left.TempVar? ==> NextTemp(c0) <= left.n < NextTemp(c)
    requires right.TempVar? ==> NextTemp(c0) <= right.n < NextTemp(c)
    ensures Produced(c0, r) && r.1 == TempVar(NextTemp(c))
    ensures Code(r.0) == Code(c) + [BinaryInstr(bop, Tag(ty), left, right, r.1)]
  {
    var i := BinaryInstr(bop, Tag(ty), left, right, TempVar(NextTemp(c)));
    FinishFresh(c0, c, i);
    Finish(c, i)
  }

  /**
   * The offset of an array access: the index itself when the element size is
   * 1; otherwise a fresh offset temporary, then `literal size`, then
   * `mul size, index` into the offset.
   */
  function ScaleIndex(c: Cursor, index: Variable, size: Pos): (r: Gen)
    requires Valid(c)
    ensures Valid(r.0) && r.0.glob == c.glob
    ensures size == 1 ==> r == (c, index)
    ensures size != 1 ==> r.1 == TempVar(NextTemp(c)) && NextTemp(r.0) == NextTemp(c) + 2
    ensures size != 1 ==> Code(r.0) == Code(c) + [
      LiteralInstr(Some("int"), IntV(size), TempVar(NextTemp(c) + 1)),
      BinaryInstr(Mul, Some("int"), TempVar(NextTemp(c) + 1), index, TempVar(NextTemp(c)))]
  {
    if size == 1 then (c, index)
    else
      var (c1, offset) := FreshTemp(c);
      var (c2, sizeTemp) := NewConstant(c1, Some("int"), IntV(size));
      (Emit(c2, BinaryInstr(Mul, Some("int"), sizeTemp, index, offset)), offset)
  }

  /** The scaling code mentions only the index and the two temporaries it issues. */
  lemma ScaleIndexFresh(c0: Cursor, c: Cursor, index: Variable, size: Pos)
    requires FreshBetween(c0, c) && (index.TempVar? ==> NextTemp(c0) <= index.n < NextTemp(c))
    ensures FreshBetween(c0, ScaleIndex(c, index, size).0)
    ensures var r := ScaleIndex(c, index, size); r.1.TempVar? ==> NextTemp(c0) <= r.1.n < NextTemp(r.0)
  {
    if size != 1 {
      var (c1, offset) := FreshTemp(c);
      var (c2, sizeTemp) := NewConstant(c1, Some("int"), IntV(size));
      FreshTempGrows(c);
      FreshTrans(c0, c, c1);
      FinishFresh(c1, c1, LiteralInstr(Some("int"), IntV(size), sizeTemp));
      FreshTrans(c0, c1, c2);
      FreshAppend(c0, c2, BinaryInstr(Mul, Some("int"), sizeTemp, index, offset), NextTemp(c0));
    }
  }

  // ---------------------------------------------------------------------------
  // Declarations

  /** A scalar declaration `type name [= init]`. */
  datatype VarDecl = VarDecl(ty: UcType, name: string, isGlobal: bool, init: Option<Expr>)

  /**
   * `visit_VarDecl`: `alloc` for the variable, then, only with an initialiser,
   * its code and one `store` of its value into the variable.
   */
  function GenerateVarDecl(d: VarDecl, c: Cursor): (r: Result<Cursor, Fault>)
    requires Valid(c)
    ensures r.Success? ==> FreshBetween(c, r.value)
    ensures d.init.None? ==> r.Success? && Code(r.value) == Code(c) + [AllocInstr(Tag(d.ty), VarName(d.name, d.isGlobal))]
    ensures d.init.Some? ==>
      var c1 := Emit(c, AllocInstr(Tag(d.ty), VarName(d.name, d.isGlobal)));
      var x := Generate(d.init.value, false, c1);
      && (r.Success? <==> x.Success?)
      && (r.Success? ==> Code(r.value) == Code(x.value.0) + [StoreInstr(Tag(d.ty), x.value.1, VarName(d.name, d.isGlobal))])
  {
    var v := VarName(d.name, d.isGlobal);
    var c1 := Emit(c, AllocInstr(Tag(d.ty), v));
    FreshRefl(c);
    FreshAppend(c, c, AllocInstr(Tag(d.ty), v), NextTemp(c));
    if d.init.None? then Success(c1)
    else
      var x :- Generate(d.init.value, false, c1);
      var i := StoreInstr(Tag(d.ty), x.1, v);
      FreshTrans(c, c1, x.0);
      FreshAppend(c, x.0, i, NextTemp(c));
      Success(Emit(x.0, i))
  }

  // ---------------------------------------------------------------------------
  // What each rule appends

  /**
   * A binary or relational node: the left operand's code, then the right's,
   * then one `binary_op[op]` instruction into a temporary above every
   * temporary either operand used. An operator outside the table is KeyError.
   */
  lemma BinaryShape(e: Expr, c: Cursor)
    requires Valid(c) && (e.BinaryOp? || e.RelationOp?)
    requires Generate(e.left, false, c).Success?
    requires Generate(e.right, false, Generate(e.left, false, c).value.0).Success?
    ensures var l := Generate(e.left, false, c).value;
      var rr := Generate(e.right, false, l.0).value;
      var r := Generate(e, false, c);
      && FreshBetween(c, l.0) && FreshBetween(l.0, rr.0)
      && (r.Success? <==> BinaryOpFor(e.op).Success?)
      && (r.Failure? ==> r.error == KeyError)
      && (r.Success? ==>
            && r.value.1 == TempVar(NextTemp(rr.0))
            && Code(r.value.0) == Code(rr.0) + [BinaryInstr(BinaryOpFor(e.op).value, Tag(e.ty), l.1, rr.1, r.value.1)])
  {
  }

  /** A unary node: the operand's code, then one `not` into a fresh temporary; any other operator is KeyError. */
  lemma UnaryShape(e: Expr, c: Cursor)
    requires Valid(c) && e.UnaryOp? && Generate(e.expr, false, c).Success?
    ensures var x := Generate(e.expr, false, c).value;
      var r := Generate(e, false, c);
      && FreshBetween(c, x.0)
      && (r.Success? <==> e.op == "!")
      && (r.Failure? ==> r.error == KeyError)
      && (r.Success? ==>
            && r.value.1 == TempVar(NextTemp(x.0))
            && Code(r.value.0) == Code(x.0) + [NotInstr(Tag(e.ty), x.1, r.value.1)])
  {
  }

  /**
   * An identifier: exactly one `load` (value) or `get` (address) into a fresh
   * temporary, of the global or the local name as the identifier says.
   */
  lemma IdShape(ty: UcType, name: string, isGlobal: bool, ref: bool, c: Cursor)
    requires Valid(c)
    ensures var r := Generate(Id(ty, name, isGlobal), ref, c);
      var t := TempVar(NextTemp(c));
      var v := VarName(name, isGlobal);
      && r.Success? && r.value.1 == t && NextTemp(r.value.0) == NextTemp(c) + 1
      && Code(r.value.0) == Code(c) + [if ref then GetInstr(Tag(ty), v, t) else LoadInstr(Tag(ty), v, t)]
  {
  }

  /**
   * Address-of and dereference visit the operand as an address. `&` or a
   * `ref` request returns it with nothing more; otherwise `literal 0` and
   * `elem address, zero` follow, into a fresh temporary.
   */
  lemma AddressShape(e: Expr, ref: bool, c: Cursor)
    requires Valid(c) && e.AddressOp? && Generate(e.expr, true, c).Success?
    ensures var x := Generate(e.expr, true, c).value;
      var r := Generate(e, ref, c);
      && r.Success?
      && (e.op == "&" || ref ==> r.value == x)
      && (e.op != "&" && !ref ==>
            var zero := TempVar(NextTemp(x.0));
            && r.value.1 == TempVar(NextTemp(x.0) + 1)
            && Code(r.value.0) == Code(x.0) + [LiteralInstr(Some("int"), IntV(0), zero), ElemInstr(Tag(e.ty), x.1, zero, r.value.1)])
  {
  }

  /**
   * Array indexing: the array's code, the index's code, the offset scaling
   * (nothing for element size 1), then exactly one `add` when an address is
   * wanted or the element is not primary, otherwise one `elem`.
   */
  lemma ArrayRefShape(e: Expr, ref: bool, c: Cursor)
    requires Valid(c) && e.ArrayRef? && Generate(e.arr, false, c).Success?
    requires Generate(e.index, false, Generate(e.arr, false, c).value.0).Success?
    ensures var a := Generate(e.arr, false, c).value;
      var x := Generate(e.index, false, a.0).value;
      var (c1, offset) := ScaleIndex(x.0, x.1, e.ty.size);
      var r := Generate(e, ref, c);
      && FreshBetween(c, a.0) && FreshBetween(a.0, x.0)
      && r.Success? && r.value.1 == TempVar(NextTemp(c1))
      && Code(r.value.0) == Code(c1) + [
           if ref || !e.ty.primary then BinaryInstr(Add, Tag(e.ty), a.1, offset, r.value.1)
           else ElemInstr(Tag(e.ty), a.1, offset, r.value.1)]
  {
  }

  /** Non-string constants are never shared: the same constant twice gives two literals in two temporaries. */
  lemma ConstantsNotShared(ty: UcType, value: Value, c: Cursor)
    requires Valid(c)
    ensures var r1 := Generate(Constant(ty, value), false, c).value;
      var r2 := Generate(Constant(ty, value), false, r1.0).value;
      && r1.1 != r2.1
      && Code(r2.0) == Code(c) + [LiteralInstr(Tag(ty), value, r1.1), LiteralInstr(Tag(ty), value, r2.1)]
  {
  }

  /**
   * String constants go through the text-section cache: they append nothing
   * to the current block, and the same text a second time yields the same
   * constant and leaves the program unchanged.
   */
  lemma StringConstantShared(ty: UcType, text: string, c: Cursor)
    requires Valid(c)
    ensures var r1 := Generate(StringConstant(ty, text), false, c).value;
      var r2 := Generate(StringConstant(ty, text), false, r1.0).value;
      && Code(r1.0) == Code(c) && r1.0.fn == c.fn
      && r2.1 == r1.1 && r2.0 == r1.0
  {
  }
}
