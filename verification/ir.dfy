/**
 * The IR's symbolic variables and typed three-address instructions
 * (uc/uc_block.py), with their textual rendering.
 */
module IR {
  import opened Wrappers
  import opened Text
  import opened Values

  // ---------------------------------------------------------------------------
  // Variables

  /** A symbolic storage location; never an address yet. */
  datatype Variable =
    | TempVar(n: nat)                          // `%<n>`, numbered per function
    | NamedVar(name: string)                   // a local, `%<name>`
    | TextVar(typename: string, version: nat)  // a text-section literal, `@.const_<typename>.<version>`
    | GlobalVar(name: string)                  // a data-section global or a function, `@<name>`
    | LabelVar(name: string)                   // a block label, `label <name>`

  /** The Python class of a variable. */
  datatype Kind = TempKind | NamedKind | TextKind | GlobalKind | LabelKind

  /** The single dataclass field `name`: an int for temporaries, a string otherwise. */
  datatype Name = IntName(i: int) | StrName(s: string)

  function KindOf(v: Variable): Kind {
    match v
    case TempVar(_) => TempKind
    case NamedVar(_) => NamedKind
    case TextVar(_, _) => TextKind
    case GlobalVar(_) => GlobalKind
    case LabelVar(_) => LabelKind
  }

  function NameOf(v: Variable): Name {
    match v
    case TempVar(n) => IntName(n)
    case NamedVar(s) => StrName(s)
    case TextVar(t, _) => StrName(t)
    case GlobalVar(s) => StrName(s)
    case LabelVar(s) => StrName(s)
  }

  /**
   * Python `==` on variables as written: the frozen dataclass compares the class
   * and the `name` field only, so a text constant's version does not take part.
   */
  predicate SameSymbolAsWritten(a: Variable, b: Variable): (r: bool)
    ensures !a.TextVar? ==> (r <==> a == b)
    ensures a.TextVar? ==> (r <==> b.TextVar? && a.typename == b.typename)
  {
    KindOf(a) == KindOf(b) && NameOf(a) == NameOf(b)
  }

  /** The dataclass hash: the `name` field alone. */
  function HashKey(v: Variable): Name {
    NameOf(v)
  }

  /**
   * Equal variables hash alike, for the as-written equality. This is a
   * consistency check of `HashKey` against `SameSymbolAsWritten`, which
   * already compares names; it needs no proof of its own.
   */
  lemma HashRespectsEquality(a: Variable, b: Variable)
    requires SameSymbolAsWritten(a, b)
    ensures HashKey(a) == HashKey(b)
  {
  }

  /** Python's `str(variable)`. */
  function Str(v: Variable): string {
    match v
    case TempVar(n) => "%" + NatToString(n)
    case NamedVar(s) => "%" + s
    case TextVar(t, k) => "@.const_" + t + "." + NatToString(k)
    case GlobalVar(s) => "@" + s
    case LabelVar(s) => "label " + s
  }

  /** Renderings of two text constants of one type differ exactly when their versions differ. */
  lemma {:induction false} TextRenderingKeepsVersion(t: string, a: nat, b: nat)
    ensures Str(TextVar(t, a)) == Str(TextVar(t, b)) <==> a == b
  {
    if Str(TextVar(t, a)) == Str(TextVar(t, b)) {
      var p := "@.const_" + t + ".";
      assert Str(TextVar(t, a)) == p + NatToString(a);
      assert Str(TextVar(t, b)) == p + NatToString(b);
      assert NatToString(a) == (p + NatToString(a))[|p|..];
      assert NatToString(b) == (p + NatToString(b))[|p|..];
      NatToStringInjective(a, b);
    }
  }

  /**
   * Two text constants of one type with different versions: distinct symbols with
   * distinct renderings, yet the as-written equality calls them equal.
   */
  lemma TextEqualityIgnoresVersion()
    ensures SameSymbolAsWritten(TextVar("string", 0), TextVar("string", 1))
    ensures Str(TextVar("string", 0)) != Str(TextVar("string", 1))
  {
    TextRenderingKeepsVersion("string", 0, 1);
  }

  // ---------------------------------------------------------------------------
  // Instructions

  /** The optional primitive type name of an instruction. */
  type TypeTag = Option<string>

  type Pos = n: int | n > 0 witness 1

  /** `sizeof`: a positive size for every type (defined outside this model). */
  type Sizes = TypeTag -> Pos

  datatype BinOp = Add | Sub | Mul | Div | Mod | Lt | Le | Gt | Ge | Eq | Ne | And | Or

  /** One formal parameter of a `define`: its type name and its temporary. */
  datatype DefineParam = DefineParam(ty: string, name: Variable)

  datatype Instr =
    | AllocInstr(ty: TypeTag, varname: Variable)
    | GlobalInstr(ty: TypeTag, varname: Variable, init: Option<string>)
    | LoadInstr(ty: TypeTag, varname: Variable, target: Variable)
    | StoreInstr(ty: TypeTag, source: Variable, target: Variable)
    | LiteralInstr(ty: TypeTag, value: Value, target: Variable)
    | ElemInstr(ty: TypeTag, source: Variable, index: Variable, target: Variable)
    | GetInstr(ty: TypeTag, source: Variable, target: Variable)
    | BinaryInstr(op: BinOp, ty: TypeTag, left: Variable, right: Variable, target: Variable)
    | NotInstr(ty: TypeTag, expr: Variable, target: Variable)
    | LabelInstr(labelName: string)
    | JumpInstr(target: Variable)
    | CBranchInstr(test: Variable, ifTrue: Option<Variable>, ifFalse: Option<Variable>)
    | DefineInstr(ty: TypeTag, source: Variable, args: seq<DefineParam>)
    | CallInstr(ty: TypeTag, source: Variable, result: Option<Variable>)
    | ReturnInstr(ty: TypeTag, result: Option<Variable>)
    | ParamInstr(ty: TypeTag, source: Variable)
    | ReadInstr(ty: TypeTag, source: Variable)
    | PrintInstr(ty: TypeTag, printed: Option<Variable>)

  /** `GlobalInstr.__init__`: a value of a `string...` type is wrapped in single quotes. */
  function MkGlobal(typename: string, varname: Variable, value: Option<string>): (i: Instr)
    ensures i.GlobalInstr? && i.ty == Some(typename) && i.varname == varname
    ensures value.None? ==> i.init.None?
    ensures value.Some? && !StartsWith(typename, "string") ==> i.init == value
    ensures value.Some? && StartsWith(typename, "string") ==> i.init == Some("'" + value.value + "'")
  {
    GlobalInstr(Some(typename), varname,
                if value.Some? && StartsWith(typename, "string") then Some("'" + value.value + "'") else value)
  }

  function BinOpName(op: BinOp): string {
    match op
    case Add => "add"  case Sub => "sub"  case Mul => "mul"  case Div => "div"  case Mod => "mod"
    case Lt => "lt"    case Le => "le"    case Gt => "gt"    case Ge => "ge"
    case Eq => "eq"    case Ne => "ne"    case And => "and"  case Or => "or"
  }

  /** The class attribute `opname`, with `AllocInstr`'s evidently intended `"alloc"`. */
  function OpName(i: Instr): string {
    match i
    case AllocInstr(_, _) => "alloc"
    case GlobalInstr(_, _, _) => "global"
    case LoadInstr(_, _, _) => "load"
    case StoreInstr(_, _, _) => "store"
    case LiteralInstr(_, _, _) => "literal"
    case ElemInstr(_, _, _, _) => "elem"
    case GetInstr(_, _, _) => "get"
    case BinaryInstr(op, _, _, _, _) => BinOpName(op)
    case NotInstr(_, _, _) => "not"
    case LabelInstr(l) => l + ":"
    case JumpInstr(_) => "jump"
    case CBranchInstr(_, _, _) => "cbranch"
    case DefineInstr(_, _, _) => "define"
    case CallInstr(_, _, _) => "call"
    case ReturnInstr(_, _) => "return"
    case ParamInstr(_, _) => "param"
    case ReadInstr(_, _) => "read"
    case PrintInstr(_, _) => "print"
  }

  /**
   * `opname` as written: `AllocInstr` spells its class attribute `opename`, so
   * reading `opname` on it raises AttributeError (None here).
   */
  function OpNameAsWritten(i: Instr): (r: Option<string>)
    ensures r.None? <==> i.AllocInstr?
    ensures r.Some? ==> r.value == OpName(i)
  {
    if i.AllocInstr? then None else Some(OpName(i))
  }

  /** The `type` attribute: untyped for labels, jumps and branches. */
  function TypeOf(i: Instr): TypeTag {
    match i
    case LabelInstr(_) => None
    case JumpInstr(_) => None
    case CBranchInstr(_, _, _) => None
    case _ => i.ty
  }

  /** The property `operation`: `<opname>_<type>`, or `<opname>` when untyped. */
  function Operation(i: Instr): string {
    match TypeOf(i)
    case Some(t) => OpName(i) + "_" + t
    case None => OpName(i)
  }

  /** Every opcode name except a label's is free of `_`. */
  lemma OpNameHasNoUnderscore(i: Instr)
    requires !i.LabelInstr?
    ensures '_' !in OpName(i)
  {
  }

  /**
   * The base opcode is recovered from `operation` by cutting at the first `_`,
   * and the type suffix is what follows: the suffix never changes the opcode.
   */
  lemma OperationSplitsIntoOpcodeAndType(i: Instr)
    requires !i.LabelInstr?
    ensures UpTo(Operation(i), '_') == OpName(i)
    ensures TypeOf(i).Some? ==> Operation(i)[|OpName(i)| + 1..] == TypeOf(i).value
    ensures TypeOf(i).None? ==> Operation(i) == OpName(i)
  {
    OpNameHasNoUnderscore(i);
    match TypeOf(i)
    case Some(t) =>
      UpToSplit(OpName(i), '_', t);
      assert Operation(i) == OpName(i) + ['_'] + t;
    case None =>
      assert Operation(i) == OpName(i) + [] ;
      UpToAbsent(OpName(i), '_');
  }

  lemma {:induction false} UpToAbsent(s: string, c: char)
    requires c !in s
    ensures UpTo(s, c) == s
  {
    if |s| > 0 {
      UpToAbsent(s[1..], c);
    }
  }

  // ---------------------------------------------------------------------------
  // Rendering (`Instruction.format`)

  /** One entry of the class attribute `arguments`, with `self.get(attr)` applied. */
  datatype Attr = Attr(name: string, value: Option<string>)

  function StrOpt(v: Option<Variable>): Option<string> {
    if v.Some? then Some(Str(v.value)) else None
  }

  /** The class attribute `arguments` of each instruction, read through `get`. */
  function Arguments(i: Instr): seq<Attr> {
    match i
    case AllocInstr(_, v) => [Attr("varname", Some(Str(v)))]
    case GlobalInstr(_, v, x) => [Attr("varname", Some(Str(v))), Attr("value", x)]
    case LoadInstr(_, v, t) => [Attr("varname", Some(Str(v))), Attr("target", Some(Str(t)))]
    // StoreInstr keeps its source in a slot called `varname`, so `get("source")` is None
    case StoreInstr(_, _, t) => [Attr("source", None), Attr("target", Some(Str(t)))]
    case LiteralInstr(_, x, t) => [Attr("value", Some(Show(x))), Attr("target", Some(Str(t)))]
    case ElemInstr(_, s, x, t) => [Attr("source", Some(Str(s))), Attr("index", Some(Str(x))), Attr("target", Some(Str(t)))]
    case GetInstr(_, s, t) => [Attr("source", Some(Str(s))), Attr("target", Some(Str(t)))]
    case BinaryInstr(_, _, l, r, t) => [Attr("left", Some(Str(l))), Attr("right", Some(Str(r))), Attr("target", Some(Str(t)))]
    case NotInstr(_, x, t) => [Attr("expr", Some(Str(x))), Attr("target", Some(Str(t)))]
    case LabelInstr(_) => []
    case JumpInstr(t) => [Attr("target", Some(Str(t)))]
    case CBranchInstr(x, a, b) => [Attr("expr_test", Some(Str(x))), Attr("true_target", StrOpt(a)), Attr("false_target", StrOpt(b))]
    case DefineInstr(_, s, _) => [Attr("source", Some(Str(s))), Attr("args", Some("..."))]
    case CallInstr(_, s, t) => [Attr("source", Some(Str(s))), Attr("target", StrOpt(t))]
    case ReturnInstr(_, t) => [Attr("target", StrOpt(t))]
    case ParamInstr(_, s) => [Attr("source", Some(Str(s)))]
    case ReadInstr(_, s) => [Attr("source", Some(Str(s)))]
    case PrintInstr(_, s) => [Attr("source", StrOpt(s))]
  }

  /** The class attribute `target_attr` (a property on `CallInstr`). */
  function TargetAttr(i: Instr): Option<string> {
    match i
    case AllocInstr(_, _) => Some("varname")
    case GlobalInstr(_, _, _) => Some("varname")
    case StoreInstr(_, _, _) => None
    case LoadInstr(_, _, _) => Some("target")
    case LiteralInstr(_, _, _) => Some("target")
    case ElemInstr(_, _, _, _) => Some("target")
    case GetInstr(_, _, _) => Some("target")
    case BinaryInstr(_, _, _, _, _) => Some("target")
    case NotInstr(_, _, _) => Some("target")
    case CallInstr(_, _, t) => if t.Some? then Some("target") else None
    case _ => None
  }

  /**
   * The `target` slot: None when the class has no such attribute (reading it raises
   * AttributeError), otherwise the slot's possibly-None content.
   */
  function TargetSlot(i: Instr): Option<Option<Variable>> {
    match i
    case LoadInstr(_, _, t) => Some(Some(t))
    case StoreInstr(_, _, t) => Some(Some(t))
    case LiteralInstr(_, _, t) => Some(Some(t))
    case ElemInstr(_, _, _, t) => Some(Some(t))
    case GetInstr(_, _, t) => Some(Some(t))
    case BinaryInstr(_, _, _, _, t) => Some(Some(t))
    case NotInstr(_, _, t) => Some(Some(t))
    case JumpInstr(t) => Some(Some(t))
    case CallInstr(_, _, t) => Some(t)
    case ReturnInstr(_, t) => Some(t)
    case _ => None
  }

  /** Class attribute `indent`: section, label and define lines are not indented. */
  predicate Indent(i: Instr) {
    !(i.GlobalInstr? || i.LabelInstr? || i.DefineInstr?)
  }

  /** `self.get(name)` over the declared arguments. */
  function Lookup(args: seq<Attr>, name: string): Option<string> {
    if |args| == 0 then None
    else if args[0].name == name then args[0].value
    else Lookup(args[1..], name)
  }

  /** The remaining arguments in declared order: the target slot and None values skipped. */
  function OtherArgs(args: seq<Attr>, skip: Option<string>): seq<string> {
    if |args| == 0 then []
    else
      var rest := OtherArgs(args[1..], skip);
      if Some(args[0].name) == skip || args[0].value.None? then rest else [args[0].value.value] + rest
  }

  /**
   * `format_args` as written, None where Python raises: a class with no `target`
   * slot, a `target_attr` of None read through `get`, or a missing `opname`.
   */
  function FormatArgs(i: Instr): Option<seq<string>> {
    var indent := if Indent(i) then [" "] else [];
    match TargetSlot(i)
    case None => None
    case Some(slot) =>
      var head :=
        if slot.None? then Some([])
        else if TargetAttr(i).None? then None
        else if Lookup(Arguments(i), TargetAttr(i).value).None? then None
        else Some([Lookup(Arguments(i), TargetAttr(i).value).value, "="]);
      match (head, OpNameAsWritten(i))
      case (Some(h), Some(name)) =>
        var tyPart := if TypeOf(i).Some? then [TypeOf(i).value] else [];
        Some(indent + h + [name] + tyPart + OtherArgs(Arguments(i), TargetAttr(i)))
      case _ => None
  }

  /** `format()`: the arguments joined by spaces; `DefineInstr` prefixes a newline. */
  function Format(i: Instr): Option<string> {
    match FormatArgs(i)
    case None => None
    case Some(parts) => Some(if i.DefineInstr? then "\n" + Join(" ", parts) else Join(" ", parts))
  }

  /** The instructions with a real target operand (TargetInstruction subclasses other than store). */
  predicate HasTarget(i: Instr) {
    i.LoadInstr? || i.LiteralInstr? || i.ElemInstr? || i.GetInstr? || i.BinaryInstr? || i.NotInstr?
  }

  function TypeWords(t: TypeTag): seq<string> {
    if t.Some? then [t.value] else []
  }

  /** The operands after the opcode of a target instruction, in declared order. */
  function Operands(i: Instr): seq<string>
    requires HasTarget(i)
  {
    match i
    case LoadInstr(_, v, _) => [Str(v)]
    case LiteralInstr(_, x, _) => [Show(x)]
    case ElemInstr(_, s, x, _) => [Str(s), Str(x)]
    case GetInstr(_, s, _) => [Str(s)]
    case BinaryInstr(_, _, l, r, _) => [Str(l), Str(r)]
    case NotInstr(_, x, _) => [Str(x)]
  }

  /**
   * A target instruction renders as `  <target> = <opname> [<type>] <operands>`:
   * an indent word, the target and `=`, the opcode, its type, then the operands
   * in declared order with the target skipped.
   */
  lemma FormatTargetInstruction(i: Instr)
    requires HasTarget(i)
    ensures Format(i) == Some(Join(" ", [" ", Str(i.target), "=", OpName(i)] + TypeWords(i.ty) + Operands(i)))
  {
    var args := Arguments(i);
    var t := Some("target");
    TargetInstructionArgs(i);
    var parts := [" "] + [Str(i.target), "="] + [OpName(i)] + TypeWords(i.ty) + Operands(i);
    assert FormatArgs(i) == Some(parts);
    assert parts == [" ", Str(i.target), "=", OpName(i)] + TypeWords(i.ty) + Operands(i);
  }

  lemma TargetInstructionArgs(i: Instr)
    requires HasTarget(i)
    ensures Lookup(Arguments(i), "target") == Some(Str(i.target))
    ensures OtherArgs(Arguments(i), Some("target")) == Operands(i)
  {
    var args := Arguments(i);
    var t := Some("target");
    match i
    case LoadInstr(_, v, _) =>
      assert Lookup(args[1..], "target") == Some(Str(i.target));
      assert OtherArgs(args[1..], t) == [];
    case LiteralInstr(_, x, _) =>
      assert Lookup(args[1..], "target") == Some(Str(i.target));
      assert OtherArgs(args[1..], t) == [];
    case ElemInstr(_, s, x, _) =>
      assert Lookup(args[2..], "target") == Some(Str(i.target));
      assert Lookup(args[1..], "target") == Some(Str(i.target));
      assert OtherArgs(args[2..], t) == [];
      assert OtherArgs(args[1..], t) == [Str(x)];
    case GetInstr(_, s, _) =>
      assert Lookup(args[1..], "target") == Some(Str(i.target));
      assert OtherArgs(args[1..], t) == [];
    case BinaryInstr(_, _, l, r, _) =>
      assert Lookup(args[2..], "target") == Some(Str(i.target));
      assert Lookup(args[1..], "target") == Some(Str(i.target));
      assert OtherArgs(args[2..], t) == [];
      assert OtherArgs(args[1..], t) == [Str(r)];
    case NotInstr(_, x, _) =>
      assert Lookup(args[1..], "target") == Some(Str(i.target));
      assert OtherArgs(args[1..], t) == [];
  }

  /** `call` renders with or without `<target> =`, depending on whether it has a target. */
  lemma FormatCall(ty: TypeTag, f: Variable, t: Option<Variable>)
    ensures t.Some? ==> Format(CallInstr(ty, f, t)) == Some(Join(" ", [" ", Str(t.value), "=", "call"] + TypeWords(ty) + [Str(f)]))
    ensures t.None? ==> Format(CallInstr(ty, f, t)) == Some(Join(" ", [" ", "call"] + TypeWords(ty) + [Str(f)]))
  {
    var i := CallInstr(ty, f, t);
    var args := Arguments(i);
    assert Lookup(args[1..], "target") == StrOpt(t);
    assert OtherArgs(args[1..], TargetAttr(i)) == [];
    assert OtherArgs(args, TargetAttr(i)) == [Str(f)];
    if t.Some? {
      var parts := [" "] + [Str(t.value), "="] + ["call"] + TypeWords(ty) + [Str(f)];
      assert FormatArgs(i) == Some(parts);
      assert parts == [" ", Str(t.value), "=", "call"] + TypeWords(ty) + [Str(f)];
    } else {
      var parts := [" "] + [] + ["call"] + TypeWords(ty) + [Str(f)];
      assert FormatArgs(i) == Some(parts);
      assert parts == [" ", "call"] + TypeWords(ty) + [Str(f)];
    }
  }

  /**
   * Rendering raises for every class with no `target` slot, for `store` and `jump`
   * (a `target_attr` of None read through `get`) and for a `return` with a value.
   */
  lemma FormatRaises(i: Instr)
    requires !HasTarget(i) && !i.CallInstr? && !(i.ReturnInstr? && i.result.None?)
    ensures Format(i).None?
  {
  }
}
