/**
 * The IR interpreter (uc/uc_interpreter.py) as a pure state machine: a flat
 * memory with a bump allocator, a per-frame register bank that grows on
 * demand, four parallel call stacks plus the parameter queue, a pre-pass that
 * lays out globals and function slots, and a fetch/dispatch loop.
 */
module Interp {
  import opened Wrappers
  import opened Values
  import opened IR
  import opened Ops

  /** The listing being run and the `sizeof` of every type it mentions. */
  datatype Program = Program(code: seq<Instr>, sz: Sizes)

  /** A saved caller frame: its variable scope and its register bank. */
  datatype Frame = Frame(vars: map<Variable, int>, registers: seq<Value>)

  datatype State = State(
    mem: map<int, Value>,                   // `M`; a cell never written holds Uninit
    globals: map<Variable, int>,            // address of each global and function slot
    labels: map<Variable, seq<(Variable, int)>>,  // per function: (label, pc - definePc)
    vars: map<Variable, int>,               // the current frame's locals and labels
    registers: seq<Value>,
    offset: int,                            // the bump allocator's next free address
    stack: seq<Frame>,
    sp: seq<int>,
    retval: seq<nat>,
    returnPcs: seq<int>,
    params: seq<Value>,
    pc: int,
    start: Option<int>,
    out: string,                            // what `print` has written
    warnings: seq<string>)                  // what was reported on stderr

  /** `Interpreter.__init__`: empty tables, one uninitialised register. */
  function Initial(): (s: State)
    ensures s.registers == [Uninit] && s.offset == 0 && s.stack == [] && s.sp == []
    ensures s.retval == [] && s.returnPcs == [] && s.params == [] && s.start.None?
  {
    State(map[], map[], map[], map[], [Uninit], 0, [], [], [], [], [], 0, None, "", [])
  }

  function Read(mem: map<int, Value>, a: int): Value {
    if a in mem then mem[a] else Uninit
  }

  // ---------------------------------------------------------------------------
  // Allocation and variable access

  /** `_alloc_data`: hands out the current offset and bumps it by the size. */
  function AllocData(s: State, n: Pos): (r: (State, int))
    ensures r.1 == s.offset && r.0.offset == s.offset + n
    ensures r.0 == s.(offset := r.0.offset)
  {
    (s.(offset := s.offset + n), s.offset)
  }

  /** `_alloc_reg`: grows the bank with Uninit until register `r` exists. */
  function AllocReg(regs: seq<Value>, r: nat): (out: seq<Value>)
    ensures |out| > r && |out| >= |regs|
    ensures |out| == |regs| || |out| == r + 1
    ensures forall i :: 0 <= i < |regs| ==> out[i] == regs[i]
    ensures forall i :: |regs| <= i < |out| ==> out[i] == Uninit
  {
    if r < |regs| then regs else regs + seq(r + 1 - |regs|, _ => Uninit)
  }

  /**
   * `_alloc_reg`'s register number: a temporary's `value` is its int; any other
   * variable's is a string, and comparing it with `len(registers)` raises TypeError.
   */
  function RegisterOf(v: Variable): (r: Result<nat, Fault>)
    ensures r.Success? <==> v.TempVar?
    ensures r.Success? ==> r.value == v.n
    ensures r.Failure? ==> r.error == TypeError
  {
    if v.TempVar? then Success(v.n) else Failure(TypeError)
  }

  /** `_get_label`: globals for a `GlobalVariable`, the current scope for anything else. */
  function GetLabel(s: State, v: Variable): (r: Result<int, Fault>)
    ensures v.GlobalVar? ==> (r.Success? <==> v in s.globals) && (r.Success? ==> r.value == s.globals[v])
    ensures !v.GlobalVar? ==> (r.Success? <==> v in s.vars) && (r.Success? ==> r.value == s.vars[v])
    ensures r.Failure? ==> r.error == KeyError
  {
    if v.GlobalVar? then
      if v in s.globals then Success(s.globals[v]) else Failure(KeyError)
    else
      if v in s.vars then Success(s.vars[v]) else Failure(KeyError)
  }

  /**
   * `_get_value`: a temporary reads its register (growing the bank first, so an
   * unseen register reads Uninit); any other variable yields its address.
   */
  function GetValue(s: State, v: Variable): (r: Result<(State, Value), Fault>)
    ensures v.TempVar? ==> r.Success?
    ensures v.TempVar? ==> r.value.1 == (if v.n < |s.registers| then s.registers[v.n] else Uninit)
    ensures v.TempVar? ==> r.value.0 == s.(registers := AllocReg(s.registers, v.n))
    ensures !v.TempVar? ==> (r.Success? <==> GetLabel(s, v).Success?)
    ensures !v.TempVar? && r.Success? ==> r.value == (s, IntV(GetLabel(s, v).value))
  {
    if v.TempVar? then
      var regs := AllocReg(s.registers, v.n);
      Success((s.(registers := regs), regs[v.n]))
    else
      var a :- GetLabel(s, v);
      Success((s, IntV(a)))
  }

  /** Writes a register, growing the bank first; other registers keep their values. */
  function SetRegister(s: State, target: Variable, value: Value): (r: Result<State, Fault>)
    ensures r.Success? <==> target.TempVar?
    ensures r.Failure? ==> r.error == TypeError
    ensures r.Success? ==> r.value == s.(registers := r.value.registers)
    ensures r.Success? ==> var regs := r.value.registers;
      |regs| == |AllocReg(s.registers, target.n)| && regs[target.n] == value
      && forall i :: 0 <= i < |regs| && i != target.n ==> regs[i] == AllocReg(s.registers, target.n)[i]
  {
    var n :- RegisterOf(target);
    Success(s.(registers := AllocReg(s.registers, n)[n := value]))
  }

  /**
   * `_load_value`: an address that is a number reads one memory cell; any
   * other value is looked up as a name in the current scope, where it is absent.
   */
  function LoadValue(s: State, address: Value): (r: Result<Value, Fault>)
    ensures IsNumber(address) ==> r == Success(Read(s.mem, AsNumber(address)))
    ensures !IsNumber(address) ==> r == Failure(KeyError)
  {
    if IsNumber(address) then Success(Read(s.mem, AsNumber(address))) else Failure(KeyError)
  }

  /** Indexing `M` with a value: only numbers (ints, bools) are list indices. */
  function CellIndex(v: Value): (r: Result<int, Fault>)
    ensures r.Success? <==> IsNumber(v)
    ensures r.Success? ==> r.value == AsNumber(v)
    ensures r.Failure? ==> r.error == TypeError
  {
    if IsNumber(v) then Success(AsNumber(v)) else Failure(TypeError)
  }

  // ---------------------------------------------------------------------------
  // Call and return

  /**
   * `_push(reg)`: make room for the result register in the caller's bank, save
   * the caller's scope and bank, the offset and the return pc, and start the
   * callee with an empty bank.
   */
  function Push(s: State, reg: nat): (r: State)
    ensures r.stack == s.stack + [Frame(s.vars, AllocReg(s.registers, reg))]
    ensures r.sp == s.sp + [s.offset] && r.retval == s.retval + [reg] && r.returnPcs == s.returnPcs + [s.pc]
    ensures r.registers == []
    ensures r.mem == s.mem && r.vars == s.vars && r.offset == s.offset && r.pc == s.pc && r.params == s.params
  {
    s.(stack := s.stack + [Frame(s.vars, AllocReg(s.registers, reg))],
       registers := [],
       sp := s.sp + [s.offset],
       retval := s.retval + [reg],
       returnPcs := s.returnPcs + [s.pc])
  }

  /**
   * `_pop`: take the callee's register 0, restore the caller's scope and bank,
   * write the value into the saved result register, restore the offset and
   * jump back. Each empty list raises IndexError.
   */
  function Pop(s: State): (r: Result<State, Fault>)
    ensures r.Success? <==>
      |s.registers| > 0 && |s.stack| > 0 && |s.retval| > 0 && |s.sp| > 0 && |s.returnPcs| > 0
      && s.retval[|s.retval| - 1] < |s.stack[|s.stack| - 1].registers|
    ensures r.Failure? ==> r.error == IndexError
  {
    if |s.registers| == 0 || |s.stack| == 0 || |s.retval| == 0 || |s.sp| == 0 || |s.returnPcs| == 0 then
      Failure(IndexError)
    else
      var frame := s.stack[|s.stack| - 1];
      var reg := s.retval[|s.retval| - 1];
      if reg >= |frame.registers| then Failure(IndexError)
      else
        Success(s.(vars := frame.vars,
                   registers := frame.registers[reg := s.registers[0]],
                   stack := s.stack[..|s.stack| - 1],
                   retval := s.retval[..|s.retval| - 1],
                   offset := s.sp[|s.sp| - 1],
                   sp := s.sp[..|s.sp| - 1],
                   pc := s.returnPcs[|s.returnPcs| - 1],
                   returnPcs := s.returnPcs[..|s.returnPcs| - 1]))
  }

  /**
   * A return that meets the four stacks exactly as the matching call left them
   * restores the caller's scope, bank, offset and pc (the instruction after the
   * call) and the stacks' depths; the caller's result register receives the
   * callee's register 0. Memory, globals, parameters and output keep the
   * callee's effects.
   */
  lemma PopUndoesPush(s: State, reg: nat, callee: State)
    requires callee.stack == Push(s, reg).stack && callee.sp == Push(s, reg).sp
    requires callee.retval == Push(s, reg).retval && callee.returnPcs == Push(s, reg).returnPcs
    requires |callee.registers| > 0
    ensures Pop(callee) == Success(callee.(
      vars := s.vars,
      registers := AllocReg(s.registers, reg)[reg := callee.registers[0]],
      offset := s.offset,
      pc := s.pc,
      stack := s.stack, sp := s.sp, retval := s.retval, returnPcs := s.returnPcs))
  {
    assert callee.stack[..|callee.stack| - 1] == s.stack;
    assert callee.sp[..|callee.sp| - 1] == s.sp;
    assert callee.retval[..|callee.retval| - 1] == s.retval;
    assert callee.returnPcs[..|callee.returnPcs| - 1] == s.returnPcs;
  }

  // ---------------------------------------------------------------------------
  // Entering a function

  /**
   * The loop over `reversed(define.args)`: each formal's register is made to
   * exist and, while arguments remain queued, receives the last one.
   */
  function BindArgs(args: seq<DefineParam>, regs: seq<Value>, params: seq<Value>): (r: Result<(seq<Value>, seq<Value>), Fault>)
    ensures r.Success? <==> forall k :: 0 <= k < |args| ==> args[k].name.TempVar?
    ensures r.Failure? ==> r.error == TypeError
    ensures r.Success? ==> |r.value.0| >= |regs|
    decreases |args|
  {
    if |args| == 0 then Success((regs, params))
    else
      var reg :- RegisterOf(args[|args| - 1].name);
      var grown := AllocReg(regs, reg);
      var (regs', params') :=
        if |params| > 0 then (grown[reg := params[|params| - 1]], params[..|params| - 1]) else (grown, params);
      var r :- BindArgs(args[..|args| - 1], regs', params');
      assert forall k :: 0 <= k < |args| - 1 ==> args[..|args| - 1][k] == args[k];
      Success(r)
  }

  /** Formals named by pairwise distinct temporaries. */
  predicate DistinctTemps(args: seq<DefineParam>) {
    && (forall k :: 0 <= k < |args| ==> args[k].name.TempVar?)
    && (forall j, k :: 0 <= j < k < |args| ==> args[j].name != args[k].name)
  }

  /**
   * With as many queued arguments as formals, formal k receives the k-th
   * queued argument (the reversed loop pops from the end) and the queue ends empty.
   */
  lemma {:induction false} BindArgsInOrder(args: seq<DefineParam>, regs: seq<Value>, params: seq<Value>)
    requires DistinctTemps(args) && |params| == |args|
    ensures BindArgs(args, regs, params).Success?
    ensures var (regs', params') := BindArgs(args, regs, params).value;
      params' == [] &&
      (forall k :: 0 <= k < |args| ==> args[k].name.n < |regs'| && regs'[args[k].name.n] == params[k])
    decreases |args|
  {
    if |args| > 0 {
      var last := |args| - 1;
      var reg := args[last].name.n;
      var grown := AllocReg(regs, reg)[reg := params[last]];
      var init := args[..last];
      assert DistinctTemps(init) by {
        assert forall k :: 0 <= k < last ==> init[k] == args[k];
      }
      BindArgsInOrder(init, grown, params[..last]);
      var (regs', params') := BindArgs(init, grown, params[..last]).value;
      assert BindArgs(args, regs, params).value == (regs', params');
      forall k | 0 <= k < |args|
        ensures args[k].name.n < |regs'| && regs'[args[k].name.n] == params[k]
      {
        if k == last {
          BindArgsKeeps(init, grown, params[..last], reg);
        } else {
          assert init[k] == args[k];
        }
      }
    }
  }

  /** Binding formals leaves alone every register none of them names. */
  lemma {:induction false} BindArgsKeeps(args: seq<DefineParam>, regs: seq<Value>, params: seq<Value>, reg: nat)
    requires BindArgs(args, regs, params).Success? && reg < |regs|
    requires forall k :: 0 <= k < |args| ==> args[k].name != TempVar(reg)
    ensures BindArgs(args, regs, params).value.0[reg] == regs[reg]
    decreases |args|
  {
    if |args| > 0 {
      var last := |args| - 1;
      var r := args[last].name.n;
      var grown := AllocReg(regs, r);
      var (regs', params') :=
        if |params| > 0 then (grown[r := params[|params| - 1]], params[..|params| - 1]) else (grown, params);
      var init := args[..last];
      assert forall k :: 0 <= k < |init| ==> init[k] == args[k];
      BindArgsKeeps(init, regs', params', reg);
    }
  }

  /** `_alloc_labels`: each recorded label is placed at `base + offset`; a later entry wins. */
  function LabelScope(entries: seq<(Variable, int)>, base: int): (m: map<Variable, int>)
    ensures m.Keys == set k | 0 <= k < |entries| :: entries[k].0
    decreases |entries|
  {
    if |entries| == 0 then map[]
    else
      var init := entries[..|entries| - 1];
      var last := entries[|entries| - 1];
      var m := LabelScope(init, base);
      assert (set k | 0 <= k < |entries| :: entries[k].0) == (set k | 0 <= k < |init| :: init[k].0) + {last.0} by {
        assert forall k :: 0 <= k < |init| ==> init[k] == entries[k];
      }
      m[last.0 := base + last.1]
  }

  /** The scope places each label at `base` plus the offset of its last entry. */
  lemma {:induction false} LabelScopePlacesLabels(entries: seq<(Variable, int)>, base: int, k: nat)
    requires k < |entries| && forall j :: k < j < |entries| ==> entries[j].0 != entries[k].0
    ensures LabelScope(entries, base)[entries[k].0] == base + entries[k].1
    decreases |entries|
  {
    var init := entries[..|entries| - 1];
    if k < |entries| - 1 {
      assert init[k] == entries[k];
      forall j | k < j < |init| ensures init[j].0 != init[k].0 {
        assert init[j] == entries[j];
      }
      LabelScopePlacesLabels(init, base, k);
    }
  }

  // ---------------------------------------------------------------------------
  // The handlers

  /** The `run_<opname>` methods the interpreter class defines. */
  const Handlers: set<string> := {
    "alloc", "call", "cbranch", "define", "elem", "exit", "get", "jump", "literal", "load",
    "param", "print", "read", "return", "store", "add", "sub", "mul", "mod", "div",
    "lt", "le", "gt", "ge", "eq", "ne", "and", "or", "not", "sitofp", "fptosi"}

  /** Only `global` and label instructions lack a handler. */
  lemma HandlerDispatch(i: Instr)
    ensures OpName(i) in Handlers <==> !i.GlobalInstr? && !i.LabelInstr?
  {
    if i.LabelInstr? {
      assert OpName(i)[|OpName(i)| - 1] == ':';
    } else if i.BinaryInstr? {
      assert OpName(i) == BinOpName(i.op);
    }
  }

  /** The effect of one handled instruction; `pc` has already moved past it. */
  function Exec(p: Program, s: State, i: Instr): Result<State, Fault> {
    match i
    case AllocInstr(ty, v) => RunAlloc(p, s, ty, v)
    case CallInstr(_, source, result) => RunCall(s, source, result)
    case CBranchInstr(test, ifTrue, ifFalse) => RunCBranch(s, test, ifTrue, ifFalse)
    case DefineInstr(_, source, args) => RunDefine(s, source, args)
    case ElemInstr(_, source, index, target) => RunElem(s, source, index, target)
    case GetInstr(_, source, target) => RunGet(s, source, target)
    case JumpInstr(target) => RunJump(s, target)
    case LiteralInstr(_, value, target) => SetRegister(s, target, value)
    case LoadInstr(_, varname, target) => RunLoad(s, varname, target)
    case ParamInstr(_, source) => RunParam(s, source)
    case PrintInstr(_, printed) => RunPrint(s, printed)
    case ReturnInstr(_, result) => RunReturn(s, result)
    case StoreInstr(_, source, target) => RunStore(s, source, target)
    case BinaryInstr(op, _, left, right, target) => RunBinary(s, op, left, right, target)
    case NotInstr(_, expr, target) => RunNot(s, expr, target)
    case GlobalInstr(_, _, _) => Success(s)
    case LabelInstr(_) => Success(s)
    case ReadInstr(_, _) => Success(s)
  }

  /** `run_alloc`: a temporary gets the address in its register, a named variable in `vars`. */
  function RunAlloc(p: Program, s: State, ty: TypeTag, v: Variable): Result<State, Fault> {
    if v.TempVar? then
      var grown := s.(registers := AllocReg(s.registers, v.n));
      var (s1, addr) := AllocData(grown, p.sz(ty));
      Success(s1.(registers := s1.registers[v.n := IntV(addr)]))
    else
      var (s1, addr) := AllocData(s, p.sz(ty));
      Success(s1.(vars := s1.vars[v := addr]))
  }

  /** `run_call`: save the frame, then jump to the pc stored in the function's cell. */
  function RunCall(s: State, source: Variable, result: Option<Variable>): Result<State, Fault> {
    var reg :- if result.Some? then RegisterOf(result.value) else Success(0);
    var s1 := Push(s, reg);
    var slot :- GetLabel(s1, source);
    var entry :- CellIndex(Read(s1.mem, slot));
    Success(s1.(pc := entry))
  }

  /** `run_cbranch`: jump to the label the test selects; a missing false label falls through. */
  function RunCBranch(s: State, test: Variable, ifTrue: Option<Variable>, ifFalse: Option<Variable>): Result<State, Fault> {
    var r :- GetValue(s, test);
    var target := if Truthy(r.1) then ifTrue else ifFalse;
    if target.None? then Success(r.0)
    else
      var pc :- GetLabel(r.0, target.value);
      Success(r.0.(pc := pc))
  }

  /** `run_define`: bind the queued arguments and enter the function's label scope. */
  function RunDefine(s: State, source: Variable, args: seq<DefineParam>): Result<State, Fault> {
    var bound :- BindArgs(args, s.registers, s.params);
    if source !in s.labels then Failure(KeyError)
    else Success(s.(registers := bound.0, params := [], vars := LabelScope(s.labels[source], s.pc)))
  }

  /** `run_elem`: read the cell at base plus index into the target register. */
  function RunElem(s: State, source: Variable, index: Variable, target: Variable): Result<State, Fault> {
    var t :- RegisterOf(target);
    var s1 := s.(registers := AllocReg(s.registers, t));
    var b :- GetValue(s1, source);
    var x :- GetValue(b.0, index);
    var base :- CellIndex(b.1);
    var idx :- CellIndex(x.1);
    SetRegister(x.0, target, Read(s.mem, base + idx))
  }

  /** `run_get`: the address of a variable into the target register. */
  function RunGet(s: State, source: Variable, target: Variable): Result<State, Fault> {
    var t :- RegisterOf(target);
    var s1 := s.(registers := AllocReg(s.registers, t));
    var a :- GetLabel(s1, source);
    SetRegister(s1, target, IntV(a))
  }

  /** `run_jump`: the target is looked up among the current function's labels. */
  function RunJump(s: State, target: Variable): Result<State, Fault> {
    if target in s.vars then Success(s.(pc := s.vars[target])) else Failure(KeyError)
  }

  /** `run_load`: the value a variable holds, or the cell it points to, into the target register. */
  function RunLoad(s: State, varname: Variable, target: Variable): Result<State, Fault> {
    var t :- RegisterOf(target);
    var s1 := s.(registers := AllocReg(s.registers, t));
    var a :- GetValue(s1, varname);
    var v :- LoadValue(a.0, a.1);
    SetRegister(a.0, target, v)
  }

  /** `run_param`: queue an argument for the next call. */
  function RunParam(s: State, source: Variable): Result<State, Fault> {
    var r :- GetValue(s, source);
    Success(r.0.(params := r.0.params + [r.1]))
  }

  /** `run_print`: a value's text, or a bare newline. */
  function RunPrint(s: State, printed: Option<Variable>): Result<State, Fault> {
    if printed.None? then Success(s.(out := s.out + "\n"))
    else
      var r :- GetValue(s, printed.value);
      Success(r.0.(out := r.0.out + Show(r.1)))
  }

  /** `run_return`: the result goes to register 0, then the caller's frame comes back. */
  function RunReturn(s: State, result: Option<Variable>): Result<State, Fault> {
    if result.None? then Pop(s)
    else
      var r :- GetValue(s, result.value);
      if |r.0.registers| == 0 then Failure(IndexError)
      else Pop(r.0.(registers := r.0.registers[0 := r.1]))
  }

  /** `run_store`: write a value into the cell the target holds. */
  function RunStore(s: State, source: Variable, target: Variable): Result<State, Fault> {
    var v :- GetValue(s, source);
    var a :- GetValue(v.0, target);
    var cell :- CellIndex(a.1);
    Success(a.0.(mem := a.0.mem[cell := v.1]))
  }

  /** The binary handlers: both operands, then the operator into the target register. */
  function RunBinary(s: State, op: BinOp, left: Variable, right: Variable, target: Variable): Result<State, Fault> {
    var x :- GetValue(s, left);
    var y :- GetValue(x.0, right);
    var t :- RegisterOf(target);
    var s1 := y.0.(registers := AllocReg(y.0.registers, t));
    var v :- Apply(op, x.1, y.1);
    SetRegister(s1, target, v)
  }

  /** `run_not`: logical negation into the target register. */
  function RunNot(s: State, expr: Variable, target: Variable): Result<State, Fault> {
    var x :- GetValue(s, expr);
    SetRegister(x.0, target, NotValue(x.1))
  }

  // ---------------------------------------------------------------------------
  // The pre-pass (`_prepare_globals`)

  /** Writes the characters of a string into consecutive cells from `base`. */
  function StoreChars(mem: map<int, Value>, base: int, cs: string): (r: map<int, Value>)
    ensures forall a :: Read(r, a) == (if base <= a < base + |cs| then CharV(cs[a - base]) else Read(mem, a))
    decreases |cs|
  {
    if |cs| == 0 then mem
    else StoreChars(mem, base, cs[..|cs| - 1])[base + |cs| - 1 := CharV(cs[|cs| - 1])]
  }

  /** The enclosing function while scanning: its symbol and the pc of its `define`. */
  type Current = Option<(Variable, int)>

  /**
   * One instruction of the pre-pass at index `pc`: a global gets the next
   * `sizeof(type)` cells (its initialiser split into characters), a `define`
   * gets one cell holding its own pc and an empty label list, and a label is
   * recorded relative to the enclosing `define` (TypeError before any).
   */
  function PrepInstr(p: Program, s: State, cur: Current, i: Instr, pc: int): Result<(State, Current), Fault> {
    match i
    case GlobalInstr(ty, v, init) =>
      var mem := if init.Some? then StoreChars(s.mem, s.offset, init.value) else s.mem;
      Success((s.(globals := s.globals[v := s.offset], mem := mem, offset := s.offset + p.sz(ty)), cur))
    case DefineInstr(_, source, _) =>
      Success((s.(globals := s.globals[source := s.offset],
                  labels := s.labels[source := []],
                  mem := s.mem[s.offset := IntV(pc)],
                  offset := s.offset + 1,
                  start := if NameOf(source) == StrName(".start") then Some(pc) else s.start),
               Some((source, pc))))
    case LabelInstr(name) =>
      if cur.None? then Failure(TypeError)
      else
        var f := cur.value.0;
        var known := if f in s.labels then s.labels[f] else [];
        Success((s.(labels := s.labels[f := known + [(LabelVar(name), pc - cur.value.1)]]), cur))
    case _ => Success((s, cur))
  }

  /** The pre-pass over the first `k` instructions. */
  function PrepUpTo(p: Program, k: nat): Result<(State, Current), Fault>
    requires k <= |p.code|
    decreases k
  {
    if k == 0 then Success((Initial(), None))
    else
      var r :- PrepUpTo(p, k - 1);
      PrepInstr(p, r.0, r.1, p.code[k - 1], k - 1)
  }

  /**
   * `_prepare_globals`: the laid-out state and `pc + 1` of the last instruction;
   * an empty listing leaves that `pc` unbound.
   */
  function PrepareGlobals(p: Program): (r: Result<(State, int), Fault>)
    ensures |p.code| == 0 ==> r == Failure(UnboundLocal)
    ensures r.Success? ==> r.value.1 == |p.code|
  {
    if |p.code| == 0 then Failure(UnboundLocal)
    else
      var r :- PrepUpTo(p, |p.code|);
      Success((r.0, |p.code|))
  }

  /** `run` up to the loop: lay out, then start at `.start` or past the end. */
  function Boot(p: Program): Result<State, Fault> {
    var r :- PrepareGlobals(p);
    Success(r.0.(pc := if r.0.start.Some? then r.0.start.value else r.1))
  }

  // Reference definitions of the layout

  /** The cells an instruction takes in the layout. */
  function Cost(p: Program, i: Instr): nat {
    if i.GlobalInstr? then p.sz(i.ty) else if i.DefineInstr? then 1 else 0
  }

  /** The address the layout gives instruction `k`: the total cost of those before it. */
  function Footprint(p: Program, k: nat): nat
    requires k <= |p.code|
    decreases k
  {
    if k == 0 then 0 else Footprint(p, k - 1) + Cost(p, p.code[k - 1])
  }

  lemma {:induction false} FootprintMonotone(p: Program, j: nat, k: nat)
    requires j <= k <= |p.code|
    ensures Footprint(p, j) <= Footprint(p, k)
    decreases k
  {
    if j < k {
      FootprintMonotone(p, j, k - 1);
    }
  }

  /** The last index below `k` whose instruction satisfies `P`. */
  function LastIndex(code: seq<Instr>, k: nat, P: Instr -> bool): (r: Option<nat>)
    requires k <= |code|
    ensures r.Some? ==> r.value < k && P(code[r.value]) && forall j :: r.value < j < k ==> !P(code[j])
    ensures r.None? ==> forall j :: 0 <= j < k ==> !P(code[j])
    decreases k
  {
    if k == 0 then None
    else if P(code[k - 1]) then Some(k - 1)
    else LastIndex(code, k - 1, P)
  }

  predicate IsDefine(i: Instr) {
    i.DefineInstr?
  }

  predicate IsLabel(i: Instr) {
    i.LabelInstr?
  }

  /** Instructions that bind `v` in `globals`: its `global` or its `define`. */
  function BindsVar(v: Variable): Instr -> bool {
    (i: Instr) => (i.GlobalInstr? && i.varname == v) || (i.DefineInstr? && i.source == v)
  }

  /** A `define` whose symbol is named `.start`; only the name is compared. */
  predicate DefinesStart(i: Instr) {
    i.DefineInstr? && NameOf(i.source) == StrName(".start")
  }

  function DefinesFunction(f: Variable): Instr -> bool {
    (i: Instr) => i.DefineInstr? && i.source == f
  }

  /** A label comes before the first `define`. */
  predicate LabelBeforeDefine(code: seq<Instr>, k: nat)
    requires k <= |code|
  {
    exists j :: 0 <= j < k && code[j].LabelInstr? && LastIndex(code, j, IsDefine).None?
  }

  /** The labels recorded for the `define` at `d` after scanning `k` instructions. */
  function LabelsOf(code: seq<Instr>, d: nat, k: nat): seq<(Variable, int)>
    requires d < k <= |code|
    decreases k
  {
    if k == d + 1 then []
    else
      var entry := if code[k - 1].LabelInstr? && LastIndex(code, k - 1, IsDefine) == Some(d)
        then [(LabelVar(code[k - 1].labelName), k - 1 - d)] else [];
      LabelsOf(code, d, k - 1) + entry
  }

  /** The pre-pass fails exactly when a label precedes every `define`. */
  lemma {:induction false} PrepSucceeds(p: Program, k: nat)
    requires k <= |p.code|
    ensures PrepUpTo(p, k).Success? <==> !LabelBeforeDefine(p.code, k)
    ensures PrepUpTo(p, k).Failure? ==> PrepUpTo(p, k).error == TypeError
    ensures PrepUpTo(p, k).Success? ==> var (s, cur) := PrepUpTo(p, k).value;
      && s.offset == Footprint(p, k)
      && (match LastIndex(p.code, k, IsDefine)
          case None => cur.None?
          case Some(d) => cur == Some((p.code[d].source, d)))
    decreases k
  {
    if k > 0 {
      PrepSucceeds(p, k - 1);
      var i := p.code[k - 1];
      if LabelBeforeDefine(p.code, k - 1) {
        var j :| 0 <= j < k - 1 && p.code[j].LabelInstr? && LastIndex(p.code, j, IsDefine).None?;
        assert LabelBeforeDefine(p.code, k);
      } else if i.LabelInstr? && LastIndex(p.code, k - 1, IsDefine).None? {
        assert LabelBeforeDefine(p.code, k);
      }
    }
  }

  /** A successful pre-pass over `k` instructions succeeded over every prefix. */
  lemma {:induction false} PrepPrefix(p: Program, j: nat, k: nat)
    requires j <= k <= |p.code| && PrepUpTo(p, k).Success?
    ensures PrepUpTo(p, j).Success?
    decreases k
  {
    if j < k {
      PrepPrefix(p, j, k - 1);
    }
  }

  /**
   * Each symbol's address is the layout address of the last `global` or
   * `define` that binds it, and only such symbols have one.
   */
  lemma {:induction false} PrepGlobals(p: Program, k: nat, v: Variable)
    requires k <= |p.code| && PrepUpTo(p, k).Success?
    ensures var s := PrepUpTo(p, k).value.0;
      && (v in s.globals <==> LastIndex(p.code, k, BindsVar(v)).Some?)
      && (v in s.globals ==> s.globals[v] == Footprint(p, LastIndex(p.code, k, BindsVar(v)).value))
    decreases k
  {
    if k > 0 {
      PrepStep(p, k - 1);
      PrepGlobals(p, k - 1, v);
      PrepOffset(p, k - 1);
    }
  }

  /** `start` is the pc of the last `define` of a symbol named `.start`, if any. */
  lemma {:induction false} PrepStart(p: Program, k: nat)
    requires k <= |p.code| && PrepUpTo(p, k).Success?
    ensures PrepUpTo(p, k).value.0.start == LastIndex(p.code, k, DefinesStart)
    decreases k
  {
    if k > 0 {
      PrepPrefix(p, k - 1, k);
      PrepStart(p, k - 1);
    }
  }

  /** Scanning instruction `k` and beyond never writes below `Footprint(k)`. */
  lemma {:induction false} PrepMemoryFrame(p: Program, j: nat, k: nat, a: int)
    requires j <= k <= |p.code| && PrepUpTo(p, k).Success? && a < Footprint(p, j)
    ensures PrepUpTo(p, j).Success? && Read(PrepUpTo(p, k).value.0.mem, a) == Read(PrepUpTo(p, j).value.0.mem, a)
    decreases k
  {
    PrepPrefix(p, j, k);
    if j < k {
      PrepStep(p, k - 1);
      PrepMemoryFrame(p, j, k - 1, a);
      PrepOffset(p, k - 1);
      FootprintMonotone(p, j, k - 1);
      var r := PrepUpTo(p, k - 1).value;
      PrepInstrKeepsBelow(p, r.0, r.1, p.code[k - 1], k - 1, a);
    }
  }

  /** One scan step writes only at or above the allocator's offset. */
  lemma PrepInstrKeepsBelow(p: Program, s: State, cur: Current, i: Instr, pc: int, a: int)
    requires PrepInstr(p, s, cur, i, pc).Success? && a < s.offset
    ensures Read(PrepInstr(p, s, cur, i, pc).value.0.mem, a) == Read(s.mem, a)
  {
  }

  /** One more instruction of the scan: the state after `k + 1` is `PrepInstr` applied to the state after `k`. */
  lemma PrepStep(p: Program, k: nat)
    requires k < |p.code| && PrepUpTo(p, k + 1).Success?
    ensures PrepUpTo(p, k).Success?
    ensures var r := PrepUpTo(p, k).value;
      PrepUpTo(p, k + 1) == PrepInstr(p, r.0, r.1, p.code[k], k)
  {
  }

  /** The scan's allocator after `k` instructions sits at their footprint. */
  lemma PrepOffset(p: Program, k: nat)
    requires k <= |p.code| && PrepUpTo(p, k).Success?
    ensures PrepUpTo(p, k).value.0.offset == Footprint(p, k)
  {
    PrepSucceeds(p, k);
  }

  /** Every function slot holds the pc of its own `define` once the scan is over. */
  lemma DefineSlotHoldsPc(p: Program, d: nat, k: nat)
    requires d < k <= |p.code| && p.code[d].DefineInstr? && PrepUpTo(p, k).Success?
    ensures Read(PrepUpTo(p, k).value.0.mem, Footprint(p, d)) == IntV(d)
  {
    PrepPrefix(p, d + 1, k);
    PrepStep(p, d);
    PrepOffset(p, d);
    var prev := PrepUpTo(p, d).value.0;
    assert PrepUpTo(p, d + 1).value.0.mem == prev.mem[prev.offset := IntV(d)];
    assert Read(PrepUpTo(p, d + 1).value.0.mem, Footprint(p, d)) == IntV(d);
    assert Footprint(p, d + 1) == Footprint(p, d) + 1;
    PrepMemoryFrame(p, d + 1, k, Footprint(p, d));
  }

  /** A global's initialiser characters stay in its cells as far as they fit. */
  lemma GlobalInitialiserStays(p: Program, g: nat, k: nat, m: nat)
    requires g < k <= |p.code| && PrepUpTo(p, k).Success?
    requires p.code[g].GlobalInstr? && p.code[g].init.Some?
    requires m < |p.code[g].init.value| && m < p.sz(p.code[g].ty)
    ensures Read(PrepUpTo(p, k).value.0.mem, Footprint(p, g) + m) == CharV(p.code[g].init.value[m])
  {
    PrepPrefix(p, g + 1, k);
    PrepStep(p, g);
    PrepOffset(p, g);
    var prev := PrepUpTo(p, g).value.0;
    var cs := p.code[g].init.value;
    assert PrepUpTo(p, g + 1).value.0.mem == StoreChars(prev.mem, prev.offset, cs);
    assert Read(StoreChars(prev.mem, prev.offset, cs), prev.offset + m) == CharV(cs[m]);
    assert Footprint(p, g + 1) == Footprint(p, g) + p.sz(p.code[g].ty);
    PrepMemoryFrame(p, g + 1, k, Footprint(p, g) + m);
  }

  /** What the labels table says about `f` after scanning `k` instructions. */
  ghost predicate LabelsAgree(code: seq<Instr>, k: nat, f: Variable, labels: map<Variable, seq<(Variable, int)>>)
    requires k <= |code|
  {
    match LastIndex(code, k, DefinesFunction(f))
    case None => f !in labels
    case Some(d) => f in labels && labels[f] == LabelsOf(code, d, k)
  }

  /** The enclosing-function register of the scan after `k` instructions. */
  ghost predicate CurrentAgrees(code: seq<Instr>, k: nat, cur: Current)
    requires k <= |code|
  {
    match LastIndex(code, k, IsDefine)
    case None => cur.None?
    case Some(d) => cur == Some((code[d].source, d))
  }

  lemma PrepLabelsStep(p: Program, k: nat, f: Variable, prev: State, cur: Current, s: State)
    requires 0 < k <= |p.code|
    requires CurrentAgrees(p.code, k - 1, cur) && LabelsAgree(p.code, k - 1, f, prev.labels)
    requires PrepInstr(p, prev, cur, p.code[k - 1], k - 1).Success?
    requires PrepInstr(p, prev, cur, p.code[k - 1], k - 1).value.0 == s
    ensures LabelsAgree(p.code, k, f, s.labels)
  {
    var i := p.code[k - 1];
    var last := LastIndex(p.code, k, DefinesFunction(f));
    var before := LastIndex(p.code, k - 1, DefinesFunction(f));
    if i.DefineInstr? {
      if i.source == f {
        assert last == Some(k - 1);
      } else {
        assert last == before;
        if last.Some? {
          assert LabelsOf(p.code, last.value, k) == LabelsOf(p.code, last.value, k - 1);
        }
      }
    } else if i.LabelInstr? {
      assert last == before;
      var d' := LastIndex(p.code, k - 1, IsDefine);
      if last.Some? {
        var d := last.value;
        assert IsDefine(p.code[d]);
        assert d'.Some? && d <= d'.value;
        if p.code[d'.value].source == f {
          assert DefinesFunction(f)(p.code[d'.value]);
          assert d'.value == d;
          assert s.labels[f] == prev.labels[f] + [(LabelVar(i.labelName), k - 1 - d)];
        } else {
          assert s.labels[f] == prev.labels[f];
          assert LabelsOf(p.code, d, k) == LabelsOf(p.code, d, k - 1);
        }
      } else if d'.Some? {
        assert !DefinesFunction(f)(p.code[d'.value]);
      }
    } else {
      assert last == before;
      assert s.labels == prev.labels;
      if last.Some? {
        assert LabelsOf(p.code, last.value, k) == LabelsOf(p.code, last.value, k - 1);
      }
    }
  }

  /**
   * The labels recorded for a function are those after its last `define` and
   * before the next one, each with its distance from the `define`.
   */
  lemma {:induction false} PrepLabels(p: Program, k: nat, f: Variable)
    requires k <= |p.code| && PrepUpTo(p, k).Success?
    ensures var s := PrepUpTo(p, k).value.0;
      match LastIndex(p.code, k, DefinesFunction(f))
      case None => f !in s.labels
      case Some(d) => f in s.labels && s.labels[f] == LabelsOf(p.code, d, k)
    decreases k
  {
    if k > 0 {
      PrepPrefix(p, k - 1, k);
      PrepLabels(p, k - 1, f);
      PrepSucceeds(p, k - 1);
      var prev := PrepUpTo(p, k - 1).value;
      assert PrepUpTo(p, k) == PrepInstr(p, prev.0, prev.1, p.code[k - 1], k - 1);
      PrepLabelsStep(p, k, f, prev.0, prev.1, PrepUpTo(p, k).value.0);
    }
  }

  /** An empty listing or a label before every `define` stops `run` before the loop. */
  lemma BootFails(p: Program)
    ensures |p.code| == 0 ==> Boot(p) == Failure(UnboundLocal)
    ensures LabelBeforeDefine(p.code, |p.code|) ==> Boot(p) == Failure(TypeError)
    ensures Boot(p).Success? <==> |p.code| > 0 && !LabelBeforeDefine(p.code, |p.code|)
  {
    PrepSucceeds(p, |p.code|);
  }

  /**
   * The loop starts at the last `define` of a symbol named `.start`; without one it starts at
   * `len(code)` and stops at once, having run nothing.
   */
  lemma BootEntry(p: Program)
    requires Boot(p).Success?
    ensures var d := LastIndex(p.code, |p.code|, DefinesStart);
      && (d.Some? ==> Boot(p).value.pc == d.value && p.code[d.value] .DefineInstr?)
      && (d.None? ==> Boot(p).value.pc == |p.code| && Step(p, Boot(p).value) == Halted(Boot(p).value))
  {
    PrepStart(p, |p.code|);
  }

  // ---------------------------------------------------------------------------
  // The loop

  /** What one iteration of the loop leads to. */
  datatype Outcome =
    | Running(s: State)   // the loop goes on
    | Halted(s: State)    // the fetch fell off the listing
    | Blocked(s: State)   // a `read` waits for standard input
    | Crashed(f: Fault)   // a Python exception escaped

  /** `ircode[pc]` with Python's list indexing: negative indices count from the end. */
  function Fetch(code: seq<Instr>, pc: int): (r: Option<Instr>)
    ensures r.Some? <==> -|code| <= pc < |code|
    ensures 0 <= pc < |code| ==> r == Some(code[pc])
  {
    if 0 <= pc < |code| then Some(code[pc])
    else if -|code| <= pc < 0 then Some(code[|code| + pc])
    else None
  }

  /**
   * One loop iteration: fetch (stop on IndexError), advance `pc`, dispatch on
   * `run_<opname>`. Labels are skipped silently; another instruction without a
   * handler produces a warning.
   */
  function Step(p: Program, s: State): Outcome {
    match Fetch(p.code, s.pc)
    case None => Halted(s)
    case Some(i) => Dispatch(p, s.(pc := s.pc + 1), i)
  }

  /** `getattr(self, f"run_{instr.opname}", None)` and what follows from it. */
  function Dispatch(p: Program, s: State, i: Instr): Outcome {
    if OpName(i) in Handlers then Handle(p, s, i)
    else if i.LabelInstr? then Running(s)
    else Running(s.(warnings := s.warnings + ["Warning: No run_" + OpName(i) + "() method"]))
  }

  /** Calling the handler: `read` waits for input; an exception ends the run. */
  function Handle(p: Program, s: State, i: Instr): (o: Outcome)
    ensures !i.ReadInstr? && Exec(p, s, i).Success? ==> o == Running(Exec(p, s, i).value)
    ensures !i.ReadInstr? && Exec(p, s, i).Failure? ==> o == Crashed(Exec(p, s, i).error)
    ensures i.ReadInstr? ==> o == Blocked(s)
  {
    if i.ReadInstr? then Blocked(s)
    else match Exec(p, s, i)
      case Success(t) => Running(t)
      case Failure(f) => Crashed(f)
  }

  /** At most `fuel` iterations of the loop. */
  function Run(p: Program, s: State, fuel: nat): Outcome
    decreases fuel
  {
    if fuel == 0 then Running(s)
    else match Step(p, s)
      case Running(t) => Run(p, t, fuel - 1)
      case other => other
  }

  /** Running past the end of the listing stops the loop and changes nothing. */
  lemma FetchPastEndHalts(p: Program, s: State)
    requires s.pc >= |p.code|
    ensures Step(p, s) == Halted(s)
  {
  }

  /** A label costs one iteration and changes nothing but `pc`. */
  lemma LabelIsSkipped(p: Program, s: State)
    requires 0 <= s.pc < |p.code| && p.code[s.pc].LabelInstr?
    ensures Step(p, s) == Running(s.(pc := s.pc + 1))
  {
    HandlerDispatch(p.code[s.pc]);
  }

  /** A `global` reaching the loop has no handler: a warning, nothing else. */
  lemma GlobalIsReported(p: Program, s: State)
    requires 0 <= s.pc < |p.code| && p.code[s.pc].GlobalInstr?
    ensures Step(p, s) == Running(s.(pc := s.pc + 1, warnings := s.warnings + ["Warning: No run_global() method"]))
  {
    HandlerDispatch(p.code[s.pc]);
    assert OpName(p.code[s.pc]) == "global";
    assert "Warning: No run_" + "global" + "() method" == "Warning: No run_global() method";
  }

  // ---------------------------------------------------------------------------
  // What individual handlers change

  /** A conditional branch moves only `pc`: to the chosen label, or on when that target is absent. */
  lemma CBranchChangesOnlyPc(p: Program, s: State, test: Variable, ifTrue: Option<Variable>, ifFalse: Option<Variable>)
    requires test.TempVar?
    ensures var v := if test.n < |s.registers| then s.registers[test.n] else Uninit;
      var target := if Truthy(v) then ifTrue else ifFalse;
      var grown := s.(registers := AllocReg(s.registers, test.n));
      && (target.None? ==> Exec(p, s, CBranchInstr(test, ifTrue, ifFalse)) == Success(grown))
      && (target.Some? && !target.value.GlobalVar? && target.value in s.vars ==>
            Exec(p, s, CBranchInstr(test, ifTrue, ifFalse)) == Success(grown.(pc := s.vars[target.value])))
      && (target.Some? && !target.value.GlobalVar? && target.value !in s.vars ==>
            Exec(p, s, CBranchInstr(test, ifTrue, ifFalse)) == Failure(KeyError))
  {
  }

  /** A jump moves only `pc`, to the label's place in the current scope. */
  lemma JumpChangesOnlyPc(p: Program, s: State, target: Variable)
    ensures target in s.vars ==> Exec(p, s, JumpInstr(target)) == Success(s.(pc := s.vars[target]))
    ensures target !in s.vars ==> Exec(p, s, JumpInstr(target)) == Failure(KeyError)
  {
  }

  /**
   * Storing a temporary through a temporary pointer writes exactly one cell;
   * a pointer that is not a number is not a list index.
   */
  lemma StoreWritesOneCell(p: Program, s: State, ty: TypeTag, source: Variable, target: Variable)
    requires source.TempVar? && target.TempVar?
    ensures var r := Exec(p, s, StoreInstr(ty, source, target));
      var grown := AllocReg(AllocReg(s.registers, source.n), target.n);
      var v := if source.n < |s.registers| then s.registers[source.n] else Uninit;
      var a := grown[target.n];
      && (IsNumber(a) ==> r.Success? && r.value == s.(registers := grown, mem := s.mem[AsNumber(a) := v]))
      && (IsNumber(a) ==> forall c :: c != AsNumber(a) ==> Read(r.value.mem, c) == Read(s.mem, c))
      && (!IsNumber(a) ==> r == Failure(TypeError))
  {
  }

  /** `elem` writes exactly its target register, with the cell at base plus index. */
  lemma ElemReadsOneCell(p: Program, s: State, ty: TypeTag, source: Variable, index: Variable, target: Variable)
    requires source.TempVar? && index.TempVar? && target.TempVar?
    ensures var r := Exec(p, s, ElemInstr(ty, source, index, target));
      var grown := AllocReg(AllocReg(AllocReg(s.registers, target.n), source.n), index.n);
      var b := grown[source.n];
      var x := grown[index.n];
      && (IsNumber(b) && IsNumber(x) ==>
            r.Success? && r.value == s.(registers := grown[target.n := Read(s.mem, AsNumber(b) + AsNumber(x))]))
      && (!IsNumber(b) || !IsNumber(x) ==> r == Failure(TypeError))
  {
  }

  /**
   * `alloc` reserves `sizeof(type)` cells at the offset and records their
   * address: in a temporary (growing the bank) or under the name in the scope.
   */
  lemma AllocReserves(p: Program, s: State, ty: TypeTag, v: Variable)
    ensures var r := Exec(p, s, AllocInstr(ty, v));
      && r.Success?
      && (v.TempVar? ==> r.value == s.(offset := s.offset + p.sz(ty), registers := AllocReg(s.registers, v.n)[v.n := IntV(s.offset)]))
      && (!v.TempVar? ==> r.value == s.(offset := s.offset + p.sz(ty), vars := s.vars[v := s.offset]))
  {
  }

  /** `get` writes the address of a name into one register; an unknown name raises KeyError. */
  lemma GetWritesAddress(p: Program, s: State, ty: TypeTag, source: Variable, target: Variable)
    requires target.TempVar?
    ensures var r := Exec(p, s, GetInstr(ty, source, target));
      && (r.Success? <==> GetLabel(s, source).Success?)
      && (r.Success? ==> r.value == s.(registers := AllocReg(s.registers, target.n)[target.n := IntV(GetLabel(s, source).value)]))
      && (r.Failure? ==> r.error == KeyError)
  {
  }

  /** `literal` writes its constant into one register and changes nothing else. */
  lemma LiteralWritesValue(p: Program, s: State, ty: TypeTag, value: Value, target: Variable)
    requires target.TempVar?
    ensures Exec(p, s, LiteralInstr(ty, value, target)) ==
      Success(s.(registers := AllocReg(s.registers, target.n)[target.n := value]))
  {
  }

  /** `load` of a named variable reads the one cell at its address into one register. */
  lemma LoadReadsCell(p: Program, s: State, ty: TypeTag, varname: Variable, target: Variable)
    requires target.TempVar? && !varname.TempVar?
    ensures var r := Exec(p, s, LoadInstr(ty, varname, target));
      && (r.Success? <==> GetLabel(s, varname).Success?)
      && (r.Success? ==> r.value == s.(registers := AllocReg(s.registers, target.n)[target.n := Read(s.mem, GetLabel(s, varname).value)]))
  {
  }

  /** `param` queues the value of its operand after the arguments already queued. */
  lemma ParamQueues(p: Program, s: State, ty: TypeTag, source: Variable)
    requires source.TempVar?
    ensures Exec(p, s, ParamInstr(ty, source)) ==
      Success(s.(registers := AllocReg(s.registers, source.n), params := s.params + [AllocReg(s.registers, source.n)[source.n]]))
  {
  }

  /** Printing an uninitialised register writes `XXXX`. */
  lemma PrintUninitialised(p: Program, s: State, ty: TypeTag, v: Variable)
    requires v.TempVar? && (v.n >= |s.registers| || s.registers[v.n].Uninit?)
    ensures Exec(p, s, PrintInstr(ty, Some(v))).Success?
    ensures Exec(p, s, PrintInstr(ty, Some(v))).value.out == s.out + "XXXX"
  {
  }

  /**
   * Entering a function with as many queued arguments as distinct temporary
   * formals binds formal k to argument k, empties the queue, and makes the
   * scope exactly this function's labels placed after the define.
   */
  lemma DefineBindsParameters(p: Program, s: State, ty: TypeTag, source: Variable, args: seq<DefineParam>)
    requires DistinctTemps(args) && |s.params| == |args| && source in s.labels
    ensures var r := Exec(p, s, DefineInstr(ty, source, args));
      && r.Success?
      && r.value.params == []
      && r.value.vars == LabelScope(s.labels[source], s.pc)
      && (forall k :: 0 <= k < |args| ==>
            args[k].name.n < |r.value.registers| && r.value.registers[args[k].name.n] == s.params[k])
      && r.value == s.(registers := r.value.registers, params := [], vars := r.value.vars)
  {
    BindArgsInOrder(args, s.registers, s.params);
  }

  /** A call saves the caller, starts an empty bank, and jumps to the pc in the function's slot. */
  lemma CallEntersCallee(p: Program, s: State, ty: TypeTag, f: Variable, result: Option<Variable>)
    requires result.Some? ==> result.value.TempVar?
    requires f.GlobalVar? && f in s.globals && IsNumber(Read(s.mem, s.globals[f]))
    ensures var reg := if result.Some? then result.value.n else 0;
      Exec(p, s, CallInstr(ty, f, result)) == Success(Push(s, reg).(pc := AsNumber(Read(s.mem, s.globals[f]))))
  {
  }

  /**
   * `return %r` right after entering a callee by `call`: the caller gets the
   * value in its result register and everything else of its frame back.
   */
  lemma CallThenReturn(s: State, reg: nat, callee: State, ty: TypeTag, r: Variable, p: Program)
    requires r.TempVar?
    requires callee.stack == Push(s, reg).stack && callee.sp == Push(s, reg).sp
    requires callee.retval == Push(s, reg).retval && callee.returnPcs == Push(s, reg).returnPcs
    ensures var v := if r.n < |callee.registers| then callee.registers[r.n] else Uninit;
      var c1 := callee.(registers := AllocReg(callee.registers, r.n));
      Exec(p, callee, ReturnInstr(ty, Some(r))) == Success(c1.(
        vars := s.vars,
        registers := AllocReg(s.registers, reg)[reg := v],
        offset := s.offset, pc := s.pc,
        stack := s.stack, sp := s.sp, retval := s.retval, returnPcs := s.returnPcs))
  {
    var c1 := callee.(registers := AllocReg(callee.registers, r.n));
    var v := if r.n < |callee.registers| then callee.registers[r.n] else Uninit;
    PopUndoesPush(s, reg, c1.(registers := c1.registers[0 := v]));
  }

  // ---------------------------------------------------------------------------
  // Invariants of the loop

  /**
   * The four call stacks move together, every saved result register exists in
   * its saved bank, saved offsets never decrease, and none exceeds the offset.
   */
  ghost predicate Wf(s: State) {
    && |s.stack| == |s.sp| == |s.retval| == |s.returnPcs|
    && (forall k :: 0 <= k < |s.retval| ==> s.retval[k] < |s.stack[k].registers|)
    && (forall j, k :: 0 <= j < k < |s.sp| ==> s.sp[j] <= s.sp[k])
    && (forall k :: 0 <= k < |s.sp| ==> s.sp[k] <= s.offset)
  }

  /** The part of a state the call machinery owns. */
  ghost predicate SameCallState(s: State, t: State) {
    s.stack == t.stack && s.sp == t.sp && s.retval == t.retval && s.returnPcs == t.returnPcs && s.offset <= t.offset
  }

  lemma GetValueKeepsCallState(s: State, v: Variable)
    requires GetValue(s, v).Success?
    ensures SameCallState(s, GetValue(s, v).value.0) && GetValue(s, v).value.0.offset == s.offset
  {
  }

  lemma WfOfSameCallState(s: State, t: State)
    requires Wf(s) && SameCallState(s, t)
    ensures Wf(t)
  {
  }

  /** Every handled instruction other than `call` and `return` leaves the stacks alone and can only move the offset forward. */
  lemma ExecKeepsCallState(p: Program, s: State, i: Instr)
    requires !i.CallInstr? && !i.ReturnInstr? && Exec(p, s, i).Success?
    ensures SameCallState(s, Exec(p, s, i).value)
  {
    if i.ElemInstr? || i.LoadInstr? || i.BinaryInstr? || i.NotInstr? {
      ComputeKeepsCallState(p, s, i);
    } else {
      EffectKeepsCallState(p, s, i);
    }
  }

  /** The instructions that compute into a register. */
  lemma ComputeKeepsCallState(p: Program, s: State, i: Instr)
    requires (i.ElemInstr? || i.LoadInstr? || i.BinaryInstr? || i.NotInstr?) && Exec(p, s, i).Success?
    ensures SameCallState(s, Exec(p, s, i).value)
  {
    match i
    case ElemInstr(_, source, index, target) =>
      var s1 := s.(registers := AllocReg(s.registers, target.n));
      GetValueKeepsCallState(s1, source);
      GetValueKeepsCallState(GetValue(s1, source).value.0, index);
    case LoadInstr(_, varname, target) =>
      GetValueKeepsCallState(s.(registers := AllocReg(s.registers, target.n)), varname);
    case BinaryInstr(_, _, left, right, _) =>
      GetValueKeepsCallState(s, left);
      GetValueKeepsCallState(GetValue(s, left).value.0, right);
    case NotInstr(_, expr, _) =>
      GetValueKeepsCallState(s, expr);
  }

  /** Allocation, branches, parameters, output and stores. */
  lemma EffectKeepsCallState(p: Program, s: State, i: Instr)
    requires !(i.ElemInstr? || i.LoadInstr? || i.BinaryInstr? || i.NotInstr?)
    requires !i.CallInstr? && !i.ReturnInstr? && Exec(p, s, i).Success?
    ensures SameCallState(s, Exec(p, s, i).value)
  {
    match i
    case CBranchInstr(test, _, _) =>
      GetValueKeepsCallState(s, test);
    case ParamInstr(_, source) =>
      GetValueKeepsCallState(s, source);
    case PrintInstr(_, printed) =>
      if printed.Some? {
        GetValueKeepsCallState(s, printed.value);
      }
    case StoreInstr(_, source, target) =>
      GetValueKeepsCallState(s, source);
      GetValueKeepsCallState(GetValue(s, source).value.0, target);
    case _ =>
  }

  /** A `call` pushes one well-formed frame. */
  lemma CallPreservesWf(p: Program, s: State, i: Instr)
    requires Wf(s) && i.CallInstr? && Exec(p, s, i).Success?
    ensures Wf(Exec(p, s, i).value) && |Exec(p, s, i).value.stack| == |s.stack| + 1
  {
    var t := Exec(p, s, i).value;
    var reg := if i.result.Some? then i.result.value.n else 0;
    var s1 := Push(s, reg);
    assert t == s1.(pc := t.pc);
    assert forall k :: 0 <= k < |s.retval| ==> t.retval[k] == s.retval[k] && t.stack[k] == s.stack[k];
  }

  /** A `return` pops one frame and restores the offset saved with it. */
  lemma ReturnPreservesWf(p: Program, s: State, i: Instr)
    requires Wf(s) && i.ReturnInstr? && Exec(p, s, i).Success?
    ensures Wf(Exec(p, s, i).value) && |Exec(p, s, i).value.stack| == |s.stack| - 1
  {
    var t := Exec(p, s, i).value;
    var c := if i.result.None? then s else
      var r := GetValue(s, i.result.value).value;
      r.0.(registers := r.0.registers[0 := r.1]);
    if i.result.Some? {
      GetValueKeepsCallState(s, i.result.value);
    }
    assert Pop(c) == Success(t);
    assert t.offset == s.sp[|s.sp| - 1];
  }

  /**
   * Every handled instruction keeps the stacks well formed: `call` pushes one
   * frame, `return` pops one, anything else leaves the stacks alone and can
   * only move the offset forward.
   */
  lemma ExecPreservesWf(p: Program, s: State, i: Instr)
    requires Wf(s) && Exec(p, s, i).Success?
    ensures Wf(Exec(p, s, i).value)
    ensures i.CallInstr? ==> |Exec(p, s, i).value.stack| == |s.stack| + 1
    ensures i.ReturnInstr? ==> |Exec(p, s, i).value.stack| == |s.stack| - 1
    ensures !i.CallInstr? && !i.ReturnInstr? ==> SameCallState(s, Exec(p, s, i).value)
  {
    if i.CallInstr? {
      CallPreservesWf(p, s, i);
    } else if i.ReturnInstr? {
      ReturnPreservesWf(p, s, i);
    } else {
      ExecKeepsCallState(p, s, i);
      WfOfSameCallState(s, Exec(p, s, i).value);
    }
  }

  /** The loop keeps the stacks well formed at every iteration. */
  lemma DispatchPreservesWf(p: Program, s: State, i: Instr)
    requires Wf(s)
    ensures !Dispatch(p, s, i).Crashed? ==> Wf(Dispatch(p, s, i).s)
  {
    if OpName(i) in Handlers {
      if !i.ReadInstr? && Exec(p, s, i).Success? {
        ExecPreservesWf(p, s, i);
      }
    } else {
      WfOfSameCallState(s, s.(warnings := s.warnings + ["Warning: No run_" + OpName(i) + "() method"]));
    }
  }

  /** A fetched instruction is dispatched with `pc` already past it. */
  lemma StepDispatches(p: Program, s: State, s1: State, i: Instr)
    requires Fetch(p.code, s.pc) == Some(i) && s1 == s.(pc := s.pc + 1)
    ensures Step(p, s) == Dispatch(p, s1, i)
  {
  }

  lemma StepPreservesWf(p: Program, s: State)
    requires Wf(s)
    ensures !Step(p, s).Crashed? ==> Wf(Step(p, s).s)
  {
    var f := Fetch(p.code, s.pc);
    if f.Some? {
      var s1 := s.(pc := s.pc + 1);
      StepDispatches(p, s, s1, f.value);
      WfOfSameCallState(s, s1);
      DispatchPreservesWf(p, s1, f.value);
    }
  }

  /** Any number of iterations keeps the stacks well formed. */
  lemma {:induction false} RunPreservesWf(p: Program, s: State, fuel: nat)
    requires Wf(s)
    ensures !Run(p, s, fuel).Crashed? ==> Wf(Run(p, s, fuel).s)
    decreases fuel
  {
    if fuel > 0 {
      StepPreservesWf(p, s);
      if Step(p, s).Running? {
        RunPreservesWf(p, Step(p, s).s, fuel - 1);
      }
    }
  }
}
