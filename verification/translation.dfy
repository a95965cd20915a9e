/**
 * What the generated code means: the instructions the code generator appends
 * for an expression, executed one after another by the interpreter, leave the
 * expression's value in the result temporary and touch nothing but registers
 * issued for it. The value is given by an independent evaluator over the
 * expression tree, reading variables from the same memory and scope.
 */
module Translation {
  import opened Wrappers
  import opened Values
  import opened IR
  import opened Ops
  import Interp
  import opened CodeGen

  /** Straight-line execution: each instruction's handler in turn, stopping at the first fault. */
  function RunCode(p: Interp.Program, s: Interp.State, code: seq<Instr>): (r: Result<Interp.State, Fault>)
    ensures |code| == 1 ==> r == Interp.Exec(p, s, code[0])
    decreases |code|
  {
    if |code| == 0 then Success(s)
    else
      var s1 :- Interp.Exec(p, s, code[0]);
      RunCode(p, s1, code[1..])
  }

  /** Running `a + b` runs `a`, then `b` from where `a` stopped, unless `a` faulted. */
  lemma {:induction false} RunCodeConcat(p: Interp.Program, s: Interp.State, a: seq<Instr>, b: seq<Instr>)
    ensures RunCode(p, s, a + b) ==
      (if RunCode(p, s, a).Success? then RunCode(p, RunCode(p, s, a).value, b) else RunCode(p, s, a))
    decreases |a|
  {
    if |a| == 0 {
      assert a + b == b;
    } else {
      assert (a + b)[0] == a[0];
      assert (a + b)[1..] == a[1..] + b;
      var r := Interp.Exec(p, s, a[0]);
      if r.Success? {
        RunCodeConcat(p, r.value, a[1..], b);
      }
    }
  }

  /** What a temporary reads: its register, or Uninit when the bank is shorter. */
  function Reg(s: Interp.State, n: nat): Value {
    if n < |s.registers| then s.registers[n] else Uninit
  }

  /** Writing one register leaves every other register reading as before. */
  lemma SetRegisterReads(s: Interp.State, t: Variable, v: Value)
    requires t.TempVar?
    ensures Interp.SetRegister(s, t, v).Success?
    ensures var s' := Interp.SetRegister(s, t, v).value;
      s' == s.(registers := s'.registers) && forall n: nat :: Reg(s', n) == (if n == t.n then v else Reg(s, n))
  {
    var s' := Interp.SetRegister(s, t, v).value;
    forall n: nat
      ensures Reg(s', n) == (if n == t.n then v else Reg(s, n))
    {
      if n != t.n && n < |s'.registers| && n < |Interp.AllocReg(s.registers, t.n)| {
        assert s'.registers[n] == Interp.AllocReg(s.registers, t.n)[n];
      }
    }
  }

  /** Growing the register bank changes no register's reading. */
  lemma AllocRegReads(s: Interp.State, k: nat)
    ensures forall n: nat :: Reg(s.(registers := Interp.AllocReg(s.registers, k)), n) == Reg(s, n)
  {
  }

  /** The expressions whose code is straight-line arithmetic over loads and literals. */
  predicate Pure(e: Expr) {
    match e
    case Constant(_, _) => true
    case Id(_, _, _) => true
    case BinaryOp(_, _, l, r) => Pure(l) && Pure(r)
    case RelationOp(_, _, l, r) => Pure(l) && Pure(r)
    case UnaryOp(_, _, x) => Pure(x)
    case _ => false
  }

  /**
   * The reference meaning of a pure expression in a scope: an identifier reads
   * the cell at its address; operators apply the interpreter's value semantics,
   * left operand first.
   */
  function Eval(e: Expr, s: Interp.State): Result<Value, Fault>
    requires Pure(e)
  {
    match e
    case Constant(_, v) => Success(v)
    case Id(_, name, isGlobal) =>
      var a :- Interp.GetLabel(s, VarName(name, isGlobal));
      Success(Interp.Read(s.mem, a))
    case BinaryOp(op, _, l, r) =>
      var x :- Eval(l, s);
      var y :- Eval(r, s);
      var o :- BinaryOpFor(op);
      Apply(o, x, y)
    case RelationOp(op, _, l, r) =>
      var x :- Eval(l, s);
      var y :- Eval(r, s);
      var o :- BinaryOpFor(op);
      Apply(o, x, y)
    case UnaryOp(op, _, x) =>
      var v :- Eval(x, s);
      if op != "!" then Failure(KeyError) else Success(NotValue(v))
  }

  /** The meaning of an expression does not depend on the registers. */
  lemma {:induction false} EvalIgnoresRegisters(e: Expr, s: Interp.State, regs: seq<Value>)
    requires Pure(e)
    ensures Eval(e, s.(registers := regs)) == Eval(e, s)
  {
    match e
    case Constant(_, _) =>
    case Id(_, _, _) =>
    case BinaryOp(_, _, l, r) =>
      EvalIgnoresRegisters(l, s, regs);
      EvalIgnoresRegisters(r, s, regs);
    case RelationOp(_, _, l, r) =>
      EvalIgnoresRegisters(l, s, regs);
      EvalIgnoresRegisters(r, s, regs);
    case UnaryOp(_, _, x) =>
      EvalIgnoresRegisters(x, s, regs);
  }

  /**
   * The code emitted for `e` between cursors `c` and `c2`, run from `s`, agrees
   * with `Eval`: it faults exactly when `Eval` does, with the same exception;
   * otherwise it changes only registers, leaves every register below the
   * cursor's first fresh temporary as it was, and leaves the value in `v`.
   */
  ghost predicate Computes(p: Interp.Program, s: Interp.State, e: Expr, c: Cursor, g: Gen)
    requires Pure(e) && Grows(c, g.0)
  {
    var run := RunCode(p, s, Emitted(c, g.0));
    && (run.Success? <==> Eval(e, s).Success?)
    && (run.Failure? ==> run.error == Eval(e, s).error)
    && (run.Success? ==>
          && run.value == s.(registers := run.value.registers)
          && g.1.TempVar? && Reg(run.value, g.1.n) == Eval(e, s).value
          && forall n: nat :: n < NextTemp(c) ==> Reg(run.value, n) == Reg(s, n))
  }

  /** Code generation is correct for every pure expression, from any state. */
  lemma {:induction false} GenerateComputes(p: Interp.Program, s: Interp.State, e: Expr, c: Cursor)
    requires Valid(c) && Pure(e) && Generate(e, false, c).Success?
    ensures Computes(p, s, e, c, Generate(e, false, c).value)
    decreases e, 1
  {
    match e
    case Constant(ty, v) => ConstantComputes(p, s, ty, v, c);
    case Id(ty, name, isGlobal) => IdComputes(p, s, ty, name, isGlobal, c);
    case BinaryOp(_, _, _, _) => BinaryComputes(p, s, e, c);
    case RelationOp(_, _, _, _) => BinaryComputes(p, s, e, c);
    case UnaryOp(_, _, _) => UnaryComputes(p, s, e, c);
  }

  lemma ConstantComputes(p: Interp.Program, s: Interp.State, ty: UcType, v: Value, c: Cursor)
    requires Valid(c)
    ensures Computes(p, s, Constant(ty, v), c, Generate(Constant(ty, v), false, c).value)
  {
    var g := Generate(Constant(ty, v), false, c).value;
    var i := LiteralInstr(Tag(ty), v, TempVar(NextTemp(c)));
    assert Emitted(c, g.0) == [i];
    WriteStep(p, s, i, v, NextTemp(c));
  }

  lemma IdComputes(p: Interp.Program, s: Interp.State, ty: UcType, name: string, isGlobal: bool, c: Cursor)
    requires Valid(c)
    ensures Computes(p, s, Id(ty, name, isGlobal), c, Generate(Id(ty, name, isGlobal), false, c).value)
  {
    var g := Generate(Id(ty, name, isGlobal), false, c).value;
    var i := LoadInstr(Tag(ty), VarName(name, isGlobal), TempVar(NextTemp(c)));
    assert Emitted(c, g.0) == [i];
    LoadStep(p, s, i, NextTemp(c));
  }

  lemma {:induction false} UnaryComputes(p: Interp.Program, s: Interp.State, e: Expr, c: Cursor)
    requires Valid(c) && e.UnaryOp? && Pure(e) && Generate(e, false, c).Success?
    ensures Computes(p, s, e, c, Generate(e, false, c).value)
    decreases e, 0
  {
    var x := Generate(e.expr, false, c).value;
    var i := NotInstr(Tag(e.ty), x.1, TempVar(NextTemp(x.0)));
    var g := Finish(x.0, i);
    assert Generate(e, false, c).value == g;
    GenerateComputes(p, s, e.expr, c);
    GrowsTrans(c, x.0, g.0);
    assert Emitted(x.0, g.0) == [i];
    RunCodeConcat(p, s, Emitted(c, x.0), [i]);
    var run := RunCode(p, s, Emitted(c, x.0));
    if run.Success? {
      NotStep(p, s, run.value, i, NextTemp(c));
    }
  }

  /** A `literal` writes its constant into its target register and nothing else. */
  lemma WriteStep(p: Interp.Program, s: Interp.State, i: Instr, v: Value, lo: nat)
    requires i.LiteralInstr? && i.target.TempVar? && i.value == v && lo <= i.target.n
    ensures var r := Interp.Exec(p, s, i);
      && r.Success? && r.value == s.(registers := r.value.registers)
      && Reg(r.value, i.target.n) == v
      && forall n: nat :: n < lo ==> Reg(r.value, n) == Reg(s, n)
  {
    SetRegisterReads(s, i.target, v);
  }

  /**
   * A `load` of a named variable reads the cell at the variable's address, and
   * raises KeyError when the name is not in scope.
   */
  lemma LoadStep(p: Interp.Program, s: Interp.State, i: Instr, lo: nat)
    requires i.LoadInstr? && i.target.TempVar? && !i.varname.TempVar? && lo <= i.target.n
    ensures var r := Interp.Exec(p, s, i);
      var a := Interp.GetLabel(s, i.varname);
      && (r.Success? <==> a.Success?)
      && (r.Failure? ==> r.error == a.error)
      && (r.Success? ==>
            && r.value == s.(registers := r.value.registers)
            && Reg(r.value, i.target.n) == Interp.Read(s.mem, a.value)
            && forall n: nat :: n < lo ==> Reg(r.value, n) == Reg(s, n))
  {
    var s1 := s.(registers := Interp.AllocReg(s.registers, i.target.n));
    AllocRegReads(s, i.target.n);
    assert Interp.GetLabel(s1, i.varname) == Interp.GetLabel(s, i.varname);
    var a := Interp.GetLabel(s, i.varname);
    if a.Success? {
      SetRegisterReads(s1, i.target, Interp.Read(s.mem, a.value));
    }
  }

  /** A `not` writes the negated truthiness of its operand register into its target. */
  lemma NotStep(p: Interp.Program, s: Interp.State, s1: Interp.State, i: Instr, lo: nat)
    requires i.NotInstr? && i.expr.TempVar? && i.target.TempVar? && lo <= i.target.n
    requires s1 == s.(registers := s1.registers)
    ensures var r := Interp.Exec(p, s1, i);
      && r.Success? && r.value == s.(registers := r.value.registers)
      && Reg(r.value, i.target.n) == NotValue(Reg(s1, i.expr.n))
      && forall n: nat :: n < lo ==> Reg(r.value, n) == Reg(s1, n)
  {
    var s2 := s1.(registers := Interp.AllocReg(s1.registers, i.expr.n));
    AllocRegReads(s1, i.expr.n);
    SetRegisterReads(s2, i.target, NotValue(Reg(s1, i.expr.n)));
  }

  lemma {:induction false} BinaryComputes(p: Interp.Program, s: Interp.State, e: Expr, c: Cursor)
    requires Valid(c) && (e.BinaryOp? || e.RelationOp?) && Pure(e) && Generate(e, false, c).Success?
    ensures Computes(p, s, e, c, Generate(e, false, c).value)
    decreases e, 0
  {
    var l := Generate(e.left, false, c).value;
    var r := Generate(e.right, false, l.0).value;
    var o := BinaryOpFor(e.op).value;
    var t := TempVar(NextTemp(r.0));
    var i := BinaryInstr(o, Tag(e.ty), l.1, r.1, t);
    var g := Finish(r.0, i);
    assert Generate(e, false, c).value == g;
    GrowsTrans(c, l.0, r.0);
    GrowsTrans(c, r.0, g.0);
    assert Emitted(r.0, g.0) == [i];
    GenerateComputes(p, s, e.left, c);
    RunCodeConcat(p, s, Emitted(c, l.0), Emitted(l.0, r.0));
    RunCodeConcat(p, s, Emitted(c, r.0), [i]);
    var run1 := RunCode(p, s, Emitted(c, l.0));
    if run1.Success? {
      var s1 := run1.value;
      GenerateComputes(p, s1, e.right, l.0);
      EvalIgnoresRegisters(e.right, s, s1.registers);
      assert Eval(e.right, s1) == Eval(e.right, s);
      var run2 := RunCode(p, s1, Emitted(l.0, r.0));
      if run2.Success? {
        BinaryStep(p, s, s1, run2.value, i, Eval(e.left, s).value, Eval(e.right, s).value, NextTemp(c));
      }
    }
  }

  /**
   * The closing `binary_op` instruction reads both operand registers, applies
   * the operator and writes only its target.
   */
  lemma BinaryStep(p: Interp.Program, s: Interp.State, s1: Interp.State, s2: Interp.State, i: Instr,
                   x: Value, y: Value, lo: nat)
    requires i.BinaryInstr? && i.left.TempVar? && i.right.TempVar? && i.target.TempVar?
    requires s2 == s.(registers := s2.registers)
    requires Reg(s2, i.left.n) == x && Reg(s2, i.right.n) == y && lo <= i.target.n
    ensures var r := Interp.Exec(p, s2, i);
      && (r.Success? <==> Apply(i.op, x, y).Success?)
      && (r.Failure? ==> r.error == Apply(i.op, x, y).error)
      && (r.Success? ==>
            && r.value == s.(registers := r.value.registers)
            && Reg(r.value, i.target.n) == Apply(i.op, x, y).value
            && forall n: nat :: n < lo ==> Reg(r.value, n) == Reg(s2, n))
  {
    var sx := s2.(registers := Interp.AllocReg(s2.registers, i.left.n));
    AllocRegReads(s2, i.left.n);
    var sy := sx.(registers := Interp.AllocReg(sx.registers, i.right.n));
    AllocRegReads(sx, i.right.n);
    var st := sy.(registers := Interp.AllocReg(sy.registers, i.target.n));
    AllocRegReads(sy, i.target.n);
    var v := Apply(i.op, x, y);
    if v.Success? {
      SetRegisterReads(st, i.target, v.value);
    }
  }

  // ---------------------------------------------------------------------------
  // Dereference

  /**
   * `elem source, index, target` over temporaries writes the cell at base plus
   * index into the target register; a base or index that is not a number
   * raises TypeError.
   */
  lemma ElemStep(p: Interp.Program, s: Interp.State, i: Instr, lo: nat)
    requires i.ElemInstr? && i.source.TempVar? && i.index.TempVar? && i.target.TempVar? && lo <= i.target.n
    ensures var r := Interp.Exec(p, s, i);
      var b := Reg(s, i.source.n);
      var x := Reg(s, i.index.n);
      && (IsNumber(b) && IsNumber(x) ==>
            && r.Success? && r.value == s.(registers := r.value.registers)
            && Reg(r.value, i.target.n) == Interp.Read(s.mem, AsNumber(b) + AsNumber(x))
            && forall n: nat :: n < lo ==> Reg(r.value, n) == Reg(s, n))
      && (!IsNumber(b) || !IsNumber(x) ==> r == Failure(TypeError))
  {
    var s1 := s.(registers := Interp.AllocReg(s.registers, i.target.n));
    AllocRegReads(s, i.target.n);
    var s2 := s1.(registers := Interp.AllocReg(s1.registers, i.source.n));
    AllocRegReads(s1, i.source.n);
    var s3 := s2.(registers := Interp.AllocReg(s2.registers, i.index.n));
    AllocRegReads(s2, i.index.n);
    var b := Reg(s, i.source.n);
    var x := Reg(s, i.index.n);
    if IsNumber(b) && IsNumber(x) {
      SetRegisterReads(s3, i.target, Interp.Read(s.mem, AsNumber(b) + AsNumber(x)));
    }
  }

  /**
   * A dereference's closing `literal 0` and `elem address, zero` leave, in the
   * result temporary, the cell whose address the operand's code left in its
   * register; registers below the operand's next temporary keep their values,
   * and an address that is not a number raises TypeError.
   */
  lemma DerefComputes(p: Interp.Program, s: Interp.State, e: Expr, c: Cursor)
    requires Valid(c) && e.AddressOp? && e.op != "&" && Generate(e.expr, true, c).Success?
    requires Generate(e.expr, true, c).value.1.TempVar?
    ensures Generate(e, false, c).Success?
    ensures |Code(Generate(e.expr, true, c).value.0)| <= |Code(Generate(e, false, c).value.0)|
    ensures var x := Generate(e.expr, true, c).value;
      var r := Generate(e, false, c).value;
      var run := RunCode(p, s, Code(r.0)[|Code(x.0)|..]);
      var a := Reg(s, x.1.n);
      && r.1.TempVar?
      && (IsNumber(a) ==>
            && run.Success? && run.value == s.(registers := run.value.registers)
            && Reg(run.value, r.1.n) == Interp.Read(s.mem, AsNumber(a))
            && forall n: nat :: n < NextTemp(x.0) ==> Reg(run.value, n) == Reg(s, n))
      && (!IsNumber(a) ==> run == Failure(TypeError))
  {
    var x := Generate(e.expr, true, c).value;
    AddressShape(e, false, c);
    var r := Generate(e, false, c).value;
    var zero := TempVar(NextTemp(x.0));
    var lit := LiteralInstr(Some("int"), IntV(0), zero);
    var elem := ElemInstr(Tag(e.ty), x.1, zero, r.1);
    assert Code(r.0)[|Code(x.0)|..] == [lit] + [elem];
    RunCodeConcat(p, s, [lit], [elem]);
    WriteStep(p, s, lit, IntV(0), NextTemp(x.0));
    var s1 := Interp.Exec(p, s, lit).value;
    assert x.1.n < NextTemp(x.0);
    ElemStep(p, s1, elem, NextTemp(x.0));
  }

  // ---------------------------------------------------------------------------
  // Assignment through an address

  /** `elem` reads memory and writes only its target register. */
  lemma ElemKeepsMemory(p: Interp.Program, s: Interp.State, i: Instr)
    requires i.ElemInstr?
    ensures var r := Interp.Exec(p, s, i);
      r.Success? ==> r.value == s.(registers := r.value.registers)
  {
  }

  /**
   * `store value, target` with an address in the target register writes the
   * value's register into that cell and nothing else.
   */
  lemma StoreStep(p: Interp.Program, s: Interp.State, i: Instr)
    requires i.StoreInstr? && i.source.TempVar? && i.target.TempVar? && IsNumber(Reg(s, i.target.n))
    ensures var r := Interp.Exec(p, s, i);
      && r.Success?
      && r.value.mem == s.mem[AsNumber(Reg(s, i.target.n)) := Reg(s, i.source.n)]
      && r.value == s.(mem := r.value.mem, registers := r.value.registers)
      && forall n: nat :: Reg(r.value, n) == Reg(s, n)
  {
    var s1 := s.(registers := Interp.AllocReg(s.registers, i.source.n));
    AllocRegReads(s, i.source.n);
    AllocRegReads(s1, i.target.n);
  }

  /**
   * As written, an assignment through an address never writes memory: from
   * wherever the target's code leaves the machine, the closing `literal 0` and
   * `elem` change registers only.
   */
  lemma AssignmentAsWrittenNeverStores(p: Interp.Program, s: Interp.State, e: Expr, c: Cursor)
    requires Valid(c) && e.Assignment? && !e.right.Id? && GenerateAssignmentAsWritten(e, c).Success?
    ensures var value := Generate(e.left, false, c).value;
      var target := Generate(e.right, true, value.0).value;
      var tail := Code(GenerateAssignmentAsWritten(e, c).value.0)[|Code(target.0)|..];
      var r := RunCode(p, s, tail);
      r.Success? ==> r.value.mem == s.mem
  {
    var value := Generate(e.left, false, c).value;
    var target := Generate(e.right, true, value.0).value;
    AssignmentAsWrittenShape(e, c);
    var lit := LiteralInstr(Some("int"), IntV(0), TempVar(NextTemp(target.0)));
    var elem := ElemInstr(Tag(e.ty), value.1, TempVar(NextTemp(target.0)), target.1);
    var tail := Code(GenerateAssignmentAsWritten(e, c).value.0)[|Code(target.0)|..];
    assert tail == [lit] + [elem];
    RunCodeConcat(p, s, [lit], [elem]);
    WriteStep(p, s, lit, IntV(0), 0);
    var s1 := Interp.Exec(p, s, lit).value;
    ElemKeepsMemory(p, s1, elem);
  }

  /**
   * Corrected, the assignment's closing `store` writes the value into the cell
   * whose address the target's code left in the target register.
   */
  lemma AssignmentStoresValue(p: Interp.Program, s: Interp.State, e: Expr, c: Cursor)
    requires Valid(c) && e.Assignment? && !e.right.Id? && GenerateAssignment(e, c).Success?
    requires var value := Generate(e.left, false, c).value;
      var target := Generate(e.right, true, value.0).value;
      value.1.TempVar? && target.1.TempVar? && IsNumber(Reg(s, target.1.n))
    ensures var value := Generate(e.left, false, c).value;
      var target := Generate(e.right, true, value.0).value;
      var tail := Code(GenerateAssignment(e, c).value.0)[|Code(target.0)|..];
      var r := RunCode(p, s, tail);
      && r.Success?
      && Interp.Read(r.value.mem, AsNumber(Reg(s, target.1.n))) == Reg(s, value.1.n)
  {
    var value := Generate(e.left, false, c).value;
    var target := Generate(e.right, true, value.0).value;
    AssignmentShape(e, c);
    var st := StoreInstr(Tag(e.ty), value.1, target.1);
    assert Code(GenerateAssignment(e, c).value.0)[|Code(target.0)|..] == [st];
    StoreStep(p, s, st);
  }

  /**
   * The two rules on one input: value 7 in register 0, address 5 in register 1.
   * The code as written leaves cell 5 uninitialised; the corrected store fills it.
   */
  lemma AssignmentThroughAddressExample(p: Interp.Program, s: Interp.State)
    requires s.registers == [IntV(7), IntV(5)] && s.mem == map[]
    ensures var asWritten := RunCode(p, s, [
        LiteralInstr(Some("int"), IntV(0), TempVar(2)),
        ElemInstr(Some("int"), TempVar(0), TempVar(2), TempVar(1))]);
      asWritten.Success? && Interp.Read(asWritten.value.mem, 5) == Uninit
    ensures var corrected := RunCode(p, s, [StoreInstr(Some("int"), TempVar(0), TempVar(1))]);
      corrected.Success? && Interp.Read(corrected.value.mem, 5) == IntV(7)
  {
    var lit := LiteralInstr(Some("int"), IntV(0), TempVar(2));
    var elem := ElemInstr(Some("int"), TempVar(0), TempVar(2), TempVar(1));
    assert [lit, elem] == [lit] + [elem];
    RunCodeConcat(p, s, [lit], [elem]);
    WriteStep(p, s, lit, IntV(0), 0);
    var s1 := Interp.Exec(p, s, lit).value;
    assert Reg(s1, 0) == IntV(7) && Reg(s1, 2) == IntV(0);
    ElemKeepsMemory(p, s1, elem);
    StoreStep(p, s, StoreInstr(Some("int"), TempVar(0), TempVar(1)));
  }

  // ---------------------------------------------------------------------------
  // Offset scaling and declarations

  /**
   * The scaling code of an array access leaves `size * index` (by the
   * interpreter's `mul`) in the offset temporary, failing exactly when that
   * product does.
   */
  lemma ScaleComputes(p: Interp.Program, s: Interp.State, c: Cursor, index: Variable, size: Pos)
    requires Valid(c) && size != 1 && index.TempVar? && index.n < NextTemp(c)
    ensures var r := ScaleIndex(c, index, size);
      var run := RunCode(p, s, Code(r.0)[|Code(c)|..]);
      var product := Apply(Mul, IntV(size), Reg(s, index.n));
      && (run.Success? <==> product.Success?)
      && (run.Success? ==>
            && run.value == s.(registers := run.value.registers)
            && Reg(run.value, r.1.n) == product.value
            && forall n: nat :: n < NextTemp(c) ==> Reg(run.value, n) == Reg(s, n))
  {
    var r := ScaleIndex(c, index, size);
    var lit := LiteralInstr(Some("int"), IntV(size), TempVar(NextTemp(c) + 1));
    var mul := BinaryInstr(Mul, Some("int"), TempVar(NextTemp(c) + 1), index, TempVar(NextTemp(c)));
    assert Code(r.0)[|Code(c)|..] == [lit] + [mul];
    RunCodeConcat(p, s, [lit], [mul]);
    WriteStep(p, s, lit, IntV(size), NextTemp(c) + 1);
    var s1 := Interp.Exec(p, s, lit).value;
    BinaryStep(p, s, s1, s1, mul, IntV(size), Reg(s, index.n), NextTemp(c));
  }

  /** `store value, name` writes the value's register into the cell the name is bound to. */
  lemma StoreNamedStep(p: Interp.Program, s: Interp.State, i: Instr)
    requires i.StoreInstr? && i.source.TempVar? && i.target.NamedVar? && i.target in s.vars
    ensures var r := Interp.Exec(p, s, i);
      && r.Success?
      && r.value.mem == s.mem[s.vars[i.target] := Reg(s, i.source.n)]
      && r.value == s.(mem := r.value.mem, registers := r.value.registers)
      && forall n: nat :: Reg(r.value, n) == Reg(s, n)
  {
    AllocRegReads(s, i.source.n);
  }

  /** The scope and allocator after `alloc` of a local: the next free address is bound to the name. */
  function Declared(p: Interp.Program, s: Interp.State, d: VarDecl): (s1: Interp.State)
    ensures s1.vars == s.vars[NamedVar(d.name) := s.offset] && s1.mem == s.mem
    ensures s1.offset == s.offset + p.sz(Tag(d.ty))
  {
    s.(offset := s.offset + p.sz(Tag(d.ty)), vars := s.vars[NamedVar(d.name) := s.offset])
  }

  /**
   * A local declaration takes the next `sizeof(type)` cells, binds the name to
   * the first, and with a pure initialiser stores its value there (evaluated
   * with the new name already in scope); it faults exactly when the
   * initialiser does.
   */
  lemma VarDeclComputes(p: Interp.Program, s: Interp.State, d: VarDecl, c: Cursor)
    requires Valid(c) && !d.isGlobal && (d.init.Some? ==> Pure(d.init.value))
    requires GenerateVarDecl(d, c).Success?
    ensures var run := RunCode(p, s, Emitted(c, GenerateVarDecl(d, c).value));
      var s1 := Declared(p, s, d);
      && (d.init.None? ==> run == Success(s1))
      && (d.init.Some? ==>
            && (run.Success? <==> Eval(d.init.value, s1).Success?)
            && (run.Failure? ==> run.error == Eval(d.init.value, s1).error)
            && (run.Success? ==>
                  && run.value.mem == s.mem[s.offset := Eval(d.init.value, s1).value]
                  && run.value.vars == s1.vars && run.value.offset == s1.offset))
  {
    var v := VarName(d.name, d.isGlobal);
    var alloc := AllocInstr(Tag(d.ty), v);
    var c1 := Emit(c, alloc);
    var r := GenerateVarDecl(d, c).value;
    var s1 := Declared(p, s, d);
    assert Interp.Exec(p, s, alloc) == Success(s1);
    if d.init.None? {
      assert Emitted(c, r) == [alloc];
    } else {
      var x := Generate(d.init.value, false, c1).value;
      var store := StoreInstr(Tag(d.ty), x.1, v);
      assert Code(x.0)[..|Code(c1)|] == Code(c1);
      assert Emitted(c, r) == [alloc] + (Emitted(c1, x.0) + [store]);
      RunCodeConcat(p, s, [alloc], Emitted(c1, x.0) + [store]);
      RunCodeConcat(p, s1, Emitted(c1, x.0), [store]);
      GenerateComputes(p, s1, d.init.value, c1);
      var run := RunCode(p, s1, Emitted(c1, x.0));
      if run.Success? {
        StoreNamedStep(p, run.value, store);
      }
    }
  }
}
