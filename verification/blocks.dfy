/**
 * The program -> function -> basic-block tree the code generator fills
 * (uc/uc_block.py): per-key version counters, temporaries, block labels,
 * deduplicated text literals, and the visitor that flattens the tree.
 */
module Blocks {
  import opened Wrappers
  import opened Text
  import opened IR

  // ---------------------------------------------------------------------------
  // Counters (`CountedBlock`)

  /** A default dict of counters: every key not yet used stands at `initial`. */
  datatype Counter = Counter(initial: nat, counts: map<string, nat>)

  function Count(c: Counter, key: string): nat {
    if key in c.counts then c.counts[key] else c.initial
  }

  function NewCounter(initial: nat): (c: Counter)
    ensures forall key :: Count(c, key) == initial
  {
    Counter(initial, map[])
  }

  /** `_new_version`: hands out the key's current count and advances that key alone. */
  function NewVersion(c: Counter, key: string): (r: (Counter, nat))
    ensures r.1 == Count(c, key)
    ensures Count(r.0, key) == Count(c, key) + 1
    ensures forall k :: k != key ==> Count(r.0, k) == Count(c, k)
  {
    (c.(counts := c.counts[key := Count(c, key) + 1]), Count(c, key))
  }

  /** The versions `n` successive `_new_version(key)` calls hand out. */
  function Versions(c: Counter, key: string, n: nat): seq<nat>
    decreases n
  {
    if n == 0 then [] else [NewVersion(c, key).1] + Versions(NewVersion(c, key).0, key, n - 1)
  }

  /** Successive calls for one key hand out `count, count+1, ...`. */
  lemma {:induction false} VersionsCountUp(c: Counter, key: string, n: nat)
    ensures |Versions(c, key, n)| == n
    ensures forall i :: 0 <= i < n ==> Versions(c, key, n)[i] == Count(c, key) + i
    decreases n
  {
    if n > 0 {
      VersionsCountUp(NewVersion(c, key).0, key, n - 1);
    }
  }

  // ---------------------------------------------------------------------------
  // Blocks

  /** A basic block: its label and its append-only instruction list. */
  datatype BasicBlock = BasicBlock(name: string, instr: seq<Instr>)

  /** A function: its counters, the parts of its `define`, and its blocks in creation order. */
  datatype FunctionBlock = FunctionBlock(
    counter: Counter,
    rettype: string,
    funcname: Variable,
    params: seq<DefineParam>,
    blocks: seq<BasicBlock>)

  /** The whole program: data and text sections, literal cache and functions. */
  datatype GlobalBlock = GlobalBlock(
    counter: Counter,
    data: seq<Instr>,
    text: seq<Instr>,
    consts: map<(string, string), Variable>,
    functions: seq<FunctionBlock>)

  /** A function's `define` instruction. */
  function Define(f: FunctionBlock): Instr {
    DefineInstr(Some(f.rettype), f.funcname, f.params)
  }

  /** The next temporary `new_temp()` hands out. */
  function NextTemp(f: FunctionBlock): nat {
    Count(f.counter, "temp")
  }

  /** Pairs each parameter type with a fresh temporary, in declaration order. */
  function BindParams(c: Counter, types: seq<string>): (r: (Counter, seq<DefineParam>))
    ensures |r.1| == |types|
    ensures forall i :: 0 <= i < |types| ==> r.1[i] == DefineParam(types[i], TempVar(Count(c, "temp") + i))
    ensures Count(r.0, "temp") == Count(c, "temp") + |types|
    ensures forall k :: k != "temp" ==> Count(r.0, k) == Count(c, k)
    decreases |types|
  {
    if |types| == 0 then (c, [])
    else
      var (c1, v) := NewVersion(c, "temp");
      var (c2, rest) := BindParams(c1, types[1..]);
      (c2, [DefineParam(types[0], TempVar(v))] + rest)
  }

  /** `FunctionBlock.__init__`: parameters take temporaries `0..n-1`; no block yet. */
  function MkFunction(rettype: string, funcname: Variable, paramTypes: seq<string>): (f: FunctionBlock)
    ensures |f.params| == |paramTypes| && f.blocks == []
    ensures forall i :: 0 <= i < |paramTypes| ==> f.params[i] == DefineParam(paramTypes[i], TempVar(i))
    ensures NextTemp(f) == |paramTypes| && Count(f.counter, "label") == 0
    ensures f.rettype == rettype && f.funcname == funcname
    ensures TempsIssued(f)
  {
    var (c, params) := BindParams(NewCounter(0), paramTypes);
    FunctionBlock(c, rettype, funcname, params, [])
  }

  /** `new_temp`: the function's next temporary; nothing but the temp counter moves. */
  function NewTemp(f: FunctionBlock): (r: (FunctionBlock, Variable))
    ensures r.1 == TempVar(NextTemp(f)) && NextTemp(r.0) == NextTemp(f) + 1
    ensures forall k :: k != "temp" ==> Count(r.0.counter, k) == Count(f.counter, k)
    ensures r.0 == f.(counter := r.0.counter)
    ensures TempsIssued(f) ==> TempsIssued(r.0)
    ensures TempsIssued(f) ==> forall b, k, v :: 0 <= b < |f.blocks| && 0 <= k < |f.blocks[b].instr| && v in VarsOf(f.blocks[b].instr[k]) && v.TempVar? ==> v.n < r.1.n
  {
    var (c, v) := NewVersion(f.counter, "temp");
    (f.(counter := c), TempVar(v))
  }

  /** The label `new_block(None)` gives its k-th unnamed block. */
  function GeneratedLabel(k: nat): string {
    ".L" + NatToString(k)
  }

  /**
   * `new_block`: an unnamed block is called `.L<k>` from the function's label
   * counter; a named block uses no counter. Either way it is appended last.
   */
  function NewBlock(f: FunctionBlock, name: Option<string>): (r: (FunctionBlock, BasicBlock))
    ensures r.0.blocks == f.blocks + [r.1] && r.1.instr == []
    ensures NextTemp(r.0) == NextTemp(f)
    ensures name.Some? ==> r.1.name == name.value && r.0.counter == f.counter
    ensures name.None? ==> r.1.name == GeneratedLabel(Count(f.counter, "label"))
    ensures name.None? ==> Count(r.0.counter, "label") == Count(f.counter, "label") + 1
    ensures r.0.rettype == f.rettype && r.0.funcname == f.funcname && r.0.params == f.params
  {
    if name.None? then
      var (c, k) := NewVersion(f.counter, "label");
      var b := BasicBlock(GeneratedLabel(k), []);
      (f.(counter := c, blocks := f.blocks + [b]), b)
    else
      var b := BasicBlock(name.value, []);
      (f.(blocks := f.blocks + [b]), b)
  }

  /** Unnamed blocks created at different label counts get different labels. */
  lemma GeneratedLabelsDistinct(j: nat, k: nat)
    requires j != k
    ensures GeneratedLabel(j) != GeneratedLabel(k)
  {
    if GeneratedLabel(j) == GeneratedLabel(k) {
      assert NatToString(j) == GeneratedLabel(j)[2..];
      assert NatToString(k) == GeneratedLabel(k)[2..];
      NatToStringInjective(j, k);
    }
  }

  /** Two successive `new_block(None)` calls never reuse a label. */
  lemma SuccessiveUnnamedBlocksDiffer(f: FunctionBlock)
    ensures NewBlock(NewBlock(f, None).0, None).1.name != NewBlock(f, None).1.name
  {
    GeneratedLabelsDistinct(Count(f.counter, "label") + 1, Count(f.counter, "label"));
  }

  /** `BasicBlock.append`. */
  function Append(b: BasicBlock, i: Instr): (r: BasicBlock)
    ensures r.name == b.name && r.instr == b.instr + [i]
  {
    b.(instr := b.instr + [i])
  }

  // ---------------------------------------------------------------------------
  // Temporaries of a function

  /** The variables an instruction mentions. */
  function VarsOf(i: Instr): seq<Variable> {
    match i
    case AllocInstr(_, v) => [v]
    case GlobalInstr(_, v, _) => [v]
    case LoadInstr(_, v, t) => [v, t]
    case StoreInstr(_, s, t) => [s, t]
    case LiteralInstr(_, _, t) => [t]
    case ElemInstr(_, s, x, t) => [s, x, t]
    case GetInstr(_, s, t) => [s, t]
    case BinaryInstr(_, _, l, r, t) => [l, r, t]
    case NotInstr(_, x, t) => [x, t]
    case LabelInstr(_) => []
    case JumpInstr(t) => [t]
    case CBranchInstr(x, a, b) => [x] + (if a.Some? then [a.value] else []) + (if b.Some? then [b.value] else [])
    case DefineInstr(_, s, args) => [s] + seq(|args|, k requires 0 <= k < |args| => args[k].name)
    case CallInstr(_, s, t) => [s] + (if t.Some? then [t.value] else [])
    case ReturnInstr(_, t) => if t.Some? then [t.value] else []
    case ParamInstr(_, s) => [s]
    case ReadInstr(_, s) => [s]
    case PrintInstr(_, s) => if s.Some? then [s.value] else []
  }

  /** Every temporary the instructions mention lies in `[lo, hi)`. */
  predicate TempsWithin(code: seq<Instr>, lo: nat, hi: nat) {
    forall k, v :: 0 <= k < |code| && v in VarsOf(code[k]) && v.TempVar? ==> lo <= v.n < hi
  }

  lemma TempsWithinConcat(a: seq<Instr>, b: seq<Instr>, lo: nat, hi: nat)
    requires TempsWithin(a, lo, hi) && TempsWithin(b, lo, hi)
    ensures TempsWithin(a + b, lo, hi)
  {
    forall k, v | 0 <= k < |a + b| && v in VarsOf((a + b)[k]) && v.TempVar?
      ensures lo <= v.n < hi
    {
      if k < |a| {
        assert (a + b)[k] == a[k];
      } else {
        assert (a + b)[k] == b[k - |a|];
      }
    }
  }

  lemma TempsWithinWiden(a: seq<Instr>, lo: nat, hi: nat, lo': nat, hi': nat)
    requires TempsWithin(a, lo, hi) && lo' <= lo && hi <= hi'
    ensures TempsWithin(a, lo', hi')
  {
  }

  /** Every temporary the function mentions was issued by its counter. */
  predicate TempsIssued(f: FunctionBlock) {
    && (forall p :: 0 <= p < |f.params| && f.params[p].name.TempVar? ==> f.params[p].name.n < NextTemp(f))
    && (forall b :: 0 <= b < |f.blocks| ==> TempsWithin(f.blocks[b].instr, 0, NextTemp(f)))
  }

  // ---------------------------------------------------------------------------
  // The program

  function NewGlobalBlock(): (g: GlobalBlock)
    ensures g.data == [] && g.text == [] && g.functions == [] && g.consts == map[]
  {
    GlobalBlock(NewCounter(0), [], [], map[], [])
  }

  /** A function's signature as the type checker resolves it. */
  datatype Signature = Signature(funcname: string, rettype: string, paramTypes: seq<string>)

  /** `new_function`: registers a fresh function block, last, under `@<name>`. */
  function NewFunction(g: GlobalBlock, sig: Signature): (r: (GlobalBlock, FunctionBlock))
    ensures r.0.functions == g.functions + [r.1]
    ensures r.1 == MkFunction(sig.rettype, GlobalVar(sig.funcname), sig.paramTypes)
    ensures r.0 == g.(functions := r.0.functions)
  {
    var f := MkFunction(sig.rettype, GlobalVar(sig.funcname), sig.paramTypes);
    (g.(functions := g.functions + [f]), f)
  }

  /** `new_global`: exactly one data entry is appended; text and functions are untouched. */
  function NewGlobal(g: GlobalBlock, name: string, typename: string, init: Option<string>): (r: (GlobalBlock, Variable))
    ensures r.1 == GlobalVar(name)
    ensures r.0.data == g.data + [MkGlobal(typename, GlobalVar(name), init)]
    ensures r.0.text == g.text && r.0.functions == g.functions && r.0.consts == g.consts && r.0.counter == g.counter
  {
    (g.(data := g.data + [MkGlobal(typename, GlobalVar(name), init)]), GlobalVar(name))
  }

  /**
   * `new_literal`: a known `(typename, value)` pair returns its cached symbol and
   * changes nothing; a fresh pair appends one text entry whose version is the
   * next count of the sanitised type name.
   */
  function NewLiteral(g: GlobalBlock, typename: string, value: string): (r: (GlobalBlock, Variable))
    ensures (typename, value) in g.consts ==> r == (g, g.consts[(typename, value)])
    ensures (typename, value) !in g.consts ==>
      var name := Sanitize(typename);
      && r.1 == TextVar(name, Count(g.counter, name))
      && r.0.text == g.text + [MkGlobal(typename, r.1, Some(value))]
      && r.0.consts == g.consts[(typename, value) := r.1]
      && Count(r.0.counter, name) == Count(g.counter, name) + 1
      && (forall k :: k != name ==> Count(r.0.counter, k) == Count(g.counter, k))
      && r.0.data == g.data && r.0.functions == g.functions
    ensures (typename, value) in r.0.consts && r.0.consts[(typename, value)] == r.1
  {
    if (typename, value) in g.consts then (g, g.consts[(typename, value)])
    else
      var name := Sanitize(typename);
      var (c, version) := NewVersion(g.counter, name);
      var v := TextVar(name, version);
      (g.(counter := c, text := g.text + [MkGlobal(typename, v, Some(value))], consts := g.consts[(typename, value) := v]), v)
  }

  /**
   * The literal cache is sound: each cached symbol is a text constant named
   * after its sanitised type, with a version already handed out, and no two
   * pairs share a symbol.
   */
  ghost predicate ConstsWellFormed(g: GlobalBlock) {
    && (forall key :: key in g.consts ==>
          g.consts[key].TextVar? && g.consts[key].typename == Sanitize(key.0)
          && g.consts[key].version < Count(g.counter, Sanitize(key.0)))
    && (forall k1, k2 :: k1 in g.consts && k2 in g.consts && k1 != k2 ==> g.consts[k1] != g.consts[k2])
  }

  /**
   * A fresh pair gets a symbol no other pair has, and the cache stays sound:
   * distinct literals are distinct symbols (by structural equality).
   */
  lemma NewLiteralKeepsConstsDistinct(g: GlobalBlock, typename: string, value: string)
    requires ConstsWellFormed(g)
    ensures ConstsWellFormed(NewLiteral(g, typename, value).0)
    ensures (typename, value) !in g.consts ==>
      forall key :: key in g.consts ==> g.consts[key] != NewLiteral(g, typename, value).1
  {
    if (typename, value) !in g.consts {
      var (g', v) := NewLiteral(g, typename, value);
      var name := Sanitize(typename);
      forall key | key in g.consts
        ensures g.consts[key] != v
      {
        if Sanitize(key.0) == name {
          assert g.consts[key].version < Count(g.counter, name);
        }
      }
      forall key | key in g'.consts
        ensures g'.consts[key].TextVar? && g'.consts[key].typename == Sanitize(key.0)
        ensures g'.consts[key].version < Count(g'.counter, Sanitize(key.0))
      {
        if key != (typename, value) {
          assert g'.consts[key] == g.consts[key];
          if Sanitize(key.0) != name {
            assert Count(g'.counter, Sanitize(key.0)) == Count(g.counter, Sanitize(key.0));
          }
        }
      }
    }
  }

  // ---------------------------------------------------------------------------
  // Flattening (`BlockVisitor.visit` with `EmitBlocks`)

  /** `BasicBlock.instructions`: the label, then the body in append order. */
  function BlockInstructions(b: BasicBlock): seq<Instr> {
    [LabelInstr(b.name)] + b.instr
  }

  /** Visiting a basic block: extend the total with its instructions (no sub-blocks). */
  function VisitBasic(b: BasicBlock, total: seq<Instr>): seq<Instr> {
    total + BlockInstructions(b)
  }

  function VisitBlocks(bs: seq<BasicBlock>, total: seq<Instr>): seq<Instr>
    decreases |bs|
  {
    if |bs| == 0 then total else VisitBlocks(bs[1..], VisitBasic(bs[0], total))
  }

  /** Visiting a function: its `define`, then each sub-block in creation order. */
  function VisitFunction(f: FunctionBlock, total: seq<Instr>): seq<Instr> {
    VisitBlocks(f.blocks, total + [Define(f)])
  }

  function VisitFunctions(fs: seq<FunctionBlock>, total: seq<Instr>): seq<Instr>
    decreases |fs|
  {
    if |fs| == 0 then total else VisitFunctions(fs[1..], VisitFunction(fs[0], total))
  }

  /** `EmitBlocks().visit(glob)`: text then data, then every function's sub-tree. */
  function Emit(g: GlobalBlock): seq<Instr> {
    VisitFunctions(g.functions, [] + (g.text + g.data))
  }

  /** The listing described declaratively: a concatenation in tree order. */
  function BlocksListing(bs: seq<BasicBlock>): seq<Instr>
    decreases |bs|
  {
    if |bs| == 0 then [] else BlockInstructions(bs[0]) + BlocksListing(bs[1..])
  }

  function FunctionListing(f: FunctionBlock): seq<Instr> {
    [Define(f)] + BlocksListing(f.blocks)
  }

  function FunctionsListing(fs: seq<FunctionBlock>): seq<Instr>
    decreases |fs|
  {
    if |fs| == 0 then [] else FunctionListing(fs[0]) + FunctionsListing(fs[1..])
  }

  function Listing(g: GlobalBlock): seq<Instr> {
    g.text + g.data + FunctionsListing(g.functions)
  }

  lemma {:induction false} VisitBlocksAppends(bs: seq<BasicBlock>, total: seq<Instr>)
    ensures VisitBlocks(bs, total) == total + BlocksListing(bs)
    decreases |bs|
  {
    if |bs| > 0 {
      VisitBlocksAppends(bs[1..], VisitBasic(bs[0], total));
    }
  }

  lemma {:induction false} VisitFunctionsAppends(fs: seq<FunctionBlock>, total: seq<Instr>)
    ensures VisitFunctions(fs, total) == total + FunctionsListing(fs)
    decreases |fs|
  {
    if |fs| > 0 {
      VisitBlocksAppends(fs[0].blocks, total + [Define(fs[0])]);
      VisitFunctionsAppends(fs[1..], VisitFunction(fs[0], total));
    }
  }

  /**
   * The visitor's output is the tree in pre-order: all text entries, all data
   * entries, then per function its `define` followed by each block's label and body.
   */
  lemma EmitIsListing(g: GlobalBlock)
    ensures Emit(g) == Listing(g)
  {
    VisitFunctionsAppends(g.functions, [] + (g.text + g.data));
  }

  lemma {:induction false} FunctionsListingSnoc(fs: seq<FunctionBlock>, f: FunctionBlock)
    ensures FunctionsListing(fs + [f]) == FunctionsListing(fs) + FunctionListing(f)
    decreases |fs|
  {
    if |fs| == 0 {
      assert fs + [f] == [f];
    } else {
      assert (fs + [f])[1..] == fs[1..] + [f];
      FunctionsListingSnoc(fs[1..], f);
    }
  }

  /** Registering a function appends exactly its `define` to the flattened listing. */
  lemma EmitAfterNewFunction(g: GlobalBlock, sig: Signature)
    ensures Emit(NewFunction(g, sig).0) == Emit(g) + [Define(NewFunction(g, sig).1)]
  {
    var (g', f) := NewFunction(g, sig);
    EmitIsListing(g);
    EmitIsListing(g');
    FunctionsListingSnoc(g.functions, f);
    assert BlocksListing(f.blocks) == [];
  }

  /** A fresh literal lands right after the existing text entries, before all data. */
  lemma EmitAfterFreshLiteral(g: GlobalBlock, typename: string, value: string)
    requires (typename, value) !in g.consts
    ensures var (g', v) := NewLiteral(g, typename, value);
      Emit(g') == g.text + [MkGlobal(typename, v, Some(value))] + g.data + FunctionsListing(g.functions)
  {
    var (g', v) := NewLiteral(g, typename, value);
    EmitIsListing(g');
  }
}
