# uC back end: IR builder, IR interpreter and expression code generator

This project models three layers of the back end of the uC teaching compiler, and proves properties of each layer and of how they fit together.

- **The IR builder** (`uc/uc_block.py`) covers:
  - variables: temporaries `%n`, named `%x`, globals `@g`, text constants `@.const_<type>.<k>` and labels;
  - typed three-address instructions and their one-line rendering;
  - the program → function → basic-block tree with per-key version counters;
  - the deduplicated text section;
  - the `EmitBlocks` visitor, which flattens the tree into one instruction list.
- **The IR interpreter** (`uc/uc_interpreter.py`) is a program-counter machine over that list. Its parts:
  - flat memory with a bump allocator (`offset`);
  - a register bank per frame that grows on demand;
  - the parallel call stacks (`stack`, `sp`, `retval`, `returns`) and the argument queue `params`;
  - the pre-pass `_prepare_globals`, which lays out globals and function slots and records label offsets;
  - the absorbing `Uninitialized` value.
- **The code generator** (`uc/uc_code.py`) holds the rules for:
  - constants, identifiers and binary, relational and unary operators;
  - address-of and dereference, and array indexing;
  - variable declarations and assignment;
  - the `binary_op` and `unary_op` tables.

The interpreter takes its instruction classes from a `uc_ir` module that is not part of this model. The same-named classes of `uc/uc_block.py` stand in for them. The interpreter imports a `sizeof` function from `uc.uc_ast`, and the code generator calls the type object's own `sizeof()` method. Neither is part of this model. The interpreter's is a parameter `Sizes` that returns a positive size for every type, and the generator's is the field `UcType.size`. The interpreter reads a variable's `value` where the stand-in classes have the field `name`. The model reads it as `name`: a temporary's is its number, and any other variable's is a string. In the same way, the interpreter's `store` handler reads `store.source`, and the stand-in `StoreInstr` keeps that operand in a slot called `varname`. The model reads the slot as the store's source.

Files, one module each:

| file | module | contents |
|---|---|---|
| `wrappers.dfy` | `Wrappers` | `Option`, `Result` |
| `text.dfy` | `Text` | decimal rendering, `isalnum` sanitising, `join` |
| `values.dfy` | `Values` | interpreter values (int, bool, one-character string, `Uninit`), the Python exceptions, truthiness, `str()` |
| `ir.dfy` | `IR` | variables, instructions, `opname`, `operation`, `format` |
| `blocks.dfy` | `Blocks` | counters, global, function and basic blocks, the flatten |
| `ops.dfy` | `Ops` | Python operator semantics, including floor division, `%` and `Uninit` |
| `interp.dfy` | `Interp` | interpreter state, handlers, pre-pass, run loop, call-stack invariant |
| `codegen.dfy` | `CodeGen` | the expression and declaration rules over a small expression datatype |
| `translation.dfy` | `Translation` | the generated code of pure expressions, run by the interpreter, computes what a reference evaluator computes |

Every exception the modelled code raises is an explicit `Failure(Fault)`: `TypeError`, `KeyError`, `IndexError`, `ZeroDivisionError`, `AttributeError`, `UnboundLocalError` or `ValueError`. The interpreter stops at the first one, as the Python loop does. Four exceptions of the code as written are not raised by the model's run loop:
- TypeError from `//` on `Uninit`, because the loop runs the corrected half of that finding;
- AttributeError from the missing `opname` of `alloc`, the corrected half of another finding;
- AttributeError from `store.source`, because the model reads the stand-in's `varname` slot as the source;
- AttributeError from a variable's `value`, because the model reads the stand-in's `name` in its place.

The last two are the readings described above. "## Left out" and "## Findings" give the details.

## Model

| member | source | states |
|---|---|---|
| Text.Sanitize | uc/uc_block.py:614-615 | the text-constant name keeps every alphanumeric character, turns every other one into `_`, and has the type name's length |
| Values.Show | uc/uc_interpreter.py:73-74 | `print` writes a non-empty text, and writes `XXXX` exactly for an uninitialised value |
| IR.SameSymbolAsWritten | uc/uc_block.py:24-26 | variable equality compares the class and `name` only: for a text constant, any other text constant with the same type name is equal, whatever its version |
| IR.HashRespectsEquality | uc/uc_block.py:24-26 | variables that are equal under that equality have equal hashes |
| IR.TextRenderingKeepsVersion | uc/uc_block.py:67-68 | two text constants of one type render alike exactly when their versions are equal |
| IR.TextEqualityIgnoresVersion | uc/uc_block.py:58-68 | `string` constants 0 and 1 render differently but compare equal |
| IR.MkGlobal | uc/uc_block.py:198-205 | a `global` keeps its type and name; an initial value of a `string…` type is wrapped in single quotes, other values are kept as given, and an absent value stays absent |
| IR.OpNameAsWritten | uc/uc_block.py:175-182 | `alloc` is the one instruction without an `opname` (its attribute is spelt `opename`); every other instruction has the intended opcode |
| IR.OpNameHasNoUnderscore | uc/uc_block.py:105-110 | no opcode except a label's contains `_` |
| IR.OperationSplitsIntoOpcodeAndType | uc/uc_block.py:105-110 | cutting `operation` at its first `_` gives back the opcode, and the rest is the type; an untyped instruction's `operation` is its opcode |
| IR.FormatTargetInstruction | uc/uc_block.py:127-148 | a target instruction renders as indent, target, `=`, opcode, type, then its other non-None operands in declared order, joined by spaces |
| IR.TargetInstructionArgs | uc/uc_block.py:116-145 | for a target instruction, `get(target_attr)` is the target's text, and skipping the target slot leaves exactly the operands |
| IR.FormatCall | uc/uc_block.py:484-503 | `call` renders with `<target> =` when it has a target and without it otherwise |
| IR.FormatRaises | uc/uc_block.py:127-132 | rendering fails for every instruction without a usable `target` slot: alloc, global, store, jump, cbranch, label, define, param, read, print, and a return with a value |
| Blocks.NewCounter | uc/uc_block.py:566-568 | every key of a fresh counter starts at `initial` |
| Blocks.NewVersion | uc/uc_block.py:570-573 | `_new_version` returns the key's current count, advances that key by one, and leaves every other key alone |
| Blocks.VersionsCountUp | uc/uc_block.py:570-573 | n successive versions of one key are `count, count+1, …, count+n-1` |
| Blocks.BindParams | uc/uc_block.py:640-641 | parameter i receives temporary `count+i` with its type, and the temp counter advances by the number of parameters |
| Blocks.MkFunction | uc/uc_block.py:632-645 | a new function's formals are temporaries `0..n-1` in declaration order, its next temporary is n, it has no blocks and its label counter is 0 |
| Blocks.NewTemp | uc/uc_block.py:651-652 | `new_temp` returns the next temporary, advances only the temp counter, and is greater than every temporary already used in the function's blocks |
| Blocks.NewBlock | uc/uc_block.py:657-665 | a new block is appended last and empty; an unnamed block is `.L<k>` for the current label count, which advances; a named block uses no counter; the temp counter never moves |
| Blocks.GeneratedLabelsDistinct | uc/uc_block.py:658-661 | different label counts give different `.L<k>` names |
| Blocks.SuccessiveUnnamedBlocksDiffer | uc/uc_block.py:657-665 | two unnamed blocks created one after the other have different names |
| Blocks.Append | uc/uc_block.py:696-697 | `append` adds the instruction last and keeps the block's name |
| Blocks.NewGlobalBlock | uc/uc_block.py:579-587 | a fresh program has empty data, text, function list and literal cache |
| Blocks.NewFunction | uc/uc_block.py:589-598 | `new_function` appends one function block, built from the signature, and changes nothing else |
| Blocks.NewGlobal | uc/uc_block.py:600-604 | `new_global` appends exactly one `global` to `data`, returns `@name`, and leaves text, functions, cache and counters unchanged |
| Blocks.NewLiteral | uc/uc_block.py:606-619 | a cached (type, value) pair returns the cached variable and changes nothing; a fresh pair appends one `global` to `text`, whose version is the next count of the sanitised type name, and records it in the cache |
| Blocks.NewLiteralKeepsConstsDistinct | uc/uc_block.py:606-619 | the cache stays sound (each cached symbol is a text constant named after the sanitised type, with a version already handed out, and no two pairs share a symbol), and a fresh literal differs structurally from every cached one (under the source's `==`, which ignores the version, constants of one type compare equal) |
| Blocks.VisitBlocksAppends | uc/uc_block.py:765-776 | visiting a list of basic blocks appends, to the running total, each block's label followed by its instructions |
| Blocks.VisitFunctionsAppends | uc/uc_block.py:765-776 | visiting the functions appends, for each function in creation order, its `define` followed by its blocks' listings |
| Blocks.EmitIsListing | uc/uc_block.py:778-783 | the flatten is `text`, then `data`, then each function's `define` and blocks in creation order: an independent definition of the listing |
| Blocks.EmitAfterNewFunction | uc/uc_block.py:589-598 | after `new_function`, the flatten grows by exactly that function's `define` |
| Blocks.EmitAfterFreshLiteral | uc/uc_block.py:606-623 | after a fresh literal, the flatten has the new `global` at the end of the text section and is otherwise unchanged |
| Ops.FloorDiv | uc/uc_interpreter.py:668 | Python `//` on ints: the quotient rounded toward negative infinity (bounds for both signs of the divisor) |
| Ops.PyMod | uc/uc_interpreter.py:661-662 | Python `%` on ints: `a == (a // b) * b + r`, with the remainder taking the divisor's sign |
| Ops.FloorDivValuesAsWritten | uc/uc_interpreter.py:664-668 | as written, `//` with an uninitialised operand raises TypeError (the marker defines no `__floordiv__`); division by zero raises ZeroDivisionError |
| Ops.FloorDivValues | uc/uc_interpreter.py:79-99 | with the marker absorbing as for every other arithmetic dunder, `//` on `Uninit` gives `Uninit` and otherwise agrees with the as-written version |
| Ops.Apply | uc/uc_interpreter.py:646-694 | arithmetic with `Uninit` gives `Uninit` (for `div` this is the corrected `//`; as written it raises TypeError); every comparison with `Uninit` is False; comparisons give booleans; `and`/`or` return one operand, with the truthiness of the logical and/or; int arithmetic gives an int; `//` and `%` fail exactly on a zero divisor |
| Ops.NotValue | uc/uc_interpreter.py:698-704 | `not` gives a boolean of the negated truthiness, so `not Uninit` is True |
| Interp.Initial | uc/uc_interpreter.py:157-190 | the machine starts with one uninitialised register, offset 0, empty stacks and queue, and no start |
| Interp.AllocData | uc/uc_interpreter.py:333-341 | `_alloc_data(n)` returns the old offset, advances it by exactly n, and changes nothing else |
| Interp.AllocReg | uc/uc_interpreter.py:343-349 | `_alloc_reg(r)` makes `len > r`, keeps every existing register, pads only with `Uninit`, and grows only when needed, to exactly r+1 |
| Interp.GetLabel | uc/uc_interpreter.py:351-355 | a global is looked up in `globals` and anything else in the current scope; a missing name raises KeyError |
| Interp.GetValue | uc/uc_interpreter.py:369-374 | a temporary reads its register, growing the bank and giving `Uninit` beyond it; any other variable gives its address |
| Interp.LoadValue | uc/uc_interpreter.py:357-367 | a numeric address reads one cell; any other value is looked up as a name and raises KeyError |
| Interp.Push | uc/uc_interpreter.py:406-415 | `_push` saves the caller's scope and its grown bank, the offset, the result register and the return pc, and starts an empty bank |
| Interp.Pop | uc/uc_interpreter.py:417-428 | `_pop` succeeds exactly when the bank and all four stacks are non-empty and the saved result register exists; otherwise it raises IndexError |
| Interp.PopUndoesPush | uc/uc_interpreter.py:406-428 | a pop on the stacks a push left restores the caller's scope, bank (with the callee's register 0 in the result register), offset, pc and stack depths |
| Interp.BindArgs | uc/uc_interpreter.py:557-561 | binding formals succeeds exactly when every formal is a temporary (any other formal raises TypeError), and never shrinks the bank |
| Interp.BindArgsInOrder | uc/uc_interpreter.py:557-563 | with k queued arguments and k distinct temporary formals, formal i receives argument i and the queue ends empty |
| Interp.BindArgsKeeps | uc/uc_interpreter.py:557-561 | binding leaves alone every register that no formal names |
| Interp.LabelScope | uc/uc_interpreter.py:328-331 | the new scope's names are exactly the recorded labels |
| Interp.LabelScopePlacesLabels | uc/uc_interpreter.py:328-331 | each label is placed at `pc + offset` of its last recorded entry |
| Interp.HandlerDispatch | uc/uc_interpreter.py:523-527 | only `global` and label instructions have no `run_` handler |
| Interp.StoreChars | uc/uc_interpreter.py:376-383 | storing a string writes its characters into consecutive cells from the base and leaves every other cell unchanged |
| Interp.PrepareGlobals | uc/uc_interpreter.py:454-484 | the pre-pass on an empty listing raises UnboundLocalError; on success it returns `len(code)` |
| Interp.PrepSucceeds | uc/uc_interpreter.py:478-482 | the pre-pass fails, with TypeError, exactly when a label comes before every `define`; on success the allocator sits past the layout |
| Interp.PrepGlobals | uc/uc_interpreter.py:461-470 | each global or function name gets the layout address of its last `global` or `define`, and only those names get one |
| Interp.PrepOffset | uc/uc_interpreter.py:461-474 | after k instructions the allocator sits at their footprint: each global takes `sizeof(type)` cells and each `define` one |
| Interp.PrepStart | uc/uc_interpreter.py:475-476 | `start` is the pc of the last `define` of a symbol named `.start`, or none |
| Interp.PrepMemoryFrame | uc/uc_interpreter.py:461-474 | later instructions of the pre-pass never write below the footprint of earlier ones |
| Interp.DefineSlotHoldsPc | uc/uc_interpreter.py:468-474 | after the pre-pass, every function's slot holds the pc of its own `define` |
| Interp.GlobalInitialiserStays | uc/uc_interpreter.py:461-466 | after the pre-pass, a global's initial characters sit in its cells, as far as they fit its size |
| Interp.PrepLabels | uc/uc_interpreter.py:477-482 | a function's recorded labels are those after its last `define` and before the next one, each with its distance from the `define` |
| Interp.BootFails | uc/uc_interpreter.py:486-497 | `run` stops before the loop exactly on an empty listing (UnboundLocalError) or a label before every `define` (TypeError) |
| Interp.BootEntry | uc/uc_interpreter.py:504-507 | the loop starts at the last `define` of a symbol named `.start`, or at `len(code)` when there is none |
| Interp.Fetch | uc/uc_interpreter.py:518-520 | fetching `ircode[pc]` succeeds exactly for `-len <= pc < len`, with Python's negative indexing |
| Interp.Handle | uc/uc_interpreter.py:523-525 | a handler's success continues the loop with the new state, and its exception ends the run |
| Interp.FetchPastEndHalts | uc/uc_interpreter.py:509-520 | running past the end of the listing stops the loop and changes nothing |
| Interp.LabelIsSkipped | uc/uc_interpreter.py:521-527 | a label costs one iteration and only advances `pc` |
| Interp.GlobalIsReported | uc/uc_interpreter.py:521-527 | a `global` reaching the loop only advances `pc` and adds the missing-handler warning |
| Interp.CBranchChangesOnlyPc | uc/uc_interpreter.py:545-552 | `cbranch` moves `pc` to the true or false label by truthiness, leaves it when that target is None, and changes nothing else |
| Interp.JumpChangesOnlyPc | uc/uc_interpreter.py:588-589 | `jump` sets `pc` to the label's place in the scope and changes nothing else; an unknown label raises KeyError |
| Interp.StoreWritesOneCell | uc/uc_interpreter.py:638-641 | `store` through a numeric pointer writes exactly that one cell; a pointer that is not a number raises TypeError |
| Interp.ElemReadsOneCell | uc/uc_interpreter.py:569-574 | `elem` writes only its target register, with the cell at base plus index |
| Interp.AllocReserves | uc/uc_interpreter.py:532-537 | `alloc` reserves `sizeof(type)` cells at the offset and records their address in the temporary or under the name, nothing else |
| Interp.GetWritesAddress | uc/uc_interpreter.py:584-586 | `get` writes the name's address into its target register, and raises KeyError exactly for an unknown name |
| Interp.LiteralWritesValue | uc/uc_interpreter.py:592-594 | `literal` writes its constant into its target register and changes nothing else |
| Interp.LoadReadsCell | uc/uc_interpreter.py:596-599 | `load` of a name reads the one cell at the name's address into its target register |
| Interp.ParamQueues | uc/uc_interpreter.py:601-603 | `param` appends its operand's value to the argument queue |
| Interp.PrintUninitialised | uc/uc_interpreter.py:605-610 | printing an uninitialised register writes `XXXX` |
| Interp.DefineBindsParameters | uc/uc_interpreter.py:555-567 | with k queued arguments and k distinct formals, `define` binds formal i to argument i, empties the queue, and makes the scope exactly this function's labels at `pc + offset` |
| Interp.CallEntersCallee | uc/uc_interpreter.py:539-543 | `call` pushes the caller's frame, starts an empty bank, and jumps to the pc held in the function's slot |
| Interp.CallThenReturn | uc/uc_interpreter.py:630-636 | `return %r` right after a `call` gives the caller the value of `%r` in its result register and restores its scope, bank, offset, pc and stack depths |
| Interp.ExecKeepsCallState | uc/uc_interpreter.py:532-641 | every handler other than `call` and `return` leaves the four stacks alone and only moves the offset forward |
| Interp.CallPreservesWf | uc/uc_interpreter.py:539-543 | `call` pushes exactly one well-formed frame |
| Interp.ReturnPreservesWf | uc/uc_interpreter.py:630-636 | `return` pops exactly one frame and keeps the stacks well formed |
| Interp.ExecPreservesWf | uc/uc_interpreter.py:406-428 | every handler keeps the four stacks in step, each saved result register present in its saved bank, and the saved offsets ordered |
| Interp.StepPreservesWf | uc/uc_interpreter.py:509-527 | one loop iteration that does not crash keeps the stacks well formed |
| Interp.RunPreservesWf | uc/uc_interpreter.py:509-527 | any number of loop iterations keeps the stacks well formed |
| CodeGen.BinaryOpFor | uc/uc_code.py:78-92 | the `binary_op` table covers exactly the 13 operators; any other raises KeyError |
| CodeGen.VarName | uc/uc_code.py:328-333 | an identifier's variable is global exactly when `is_global` is set, and named otherwise |
| CodeGen.Generate | uc/uc_code.py:211-345 | every rule only appends to the current block and uses only fresh temporaries; a string constant gives a text constant; every other rule except assignment gives a temporary; a `ref` request to a rule that takes none raises TypeError |
| CodeGen.NewConstant | uc/uc_code.py:302-308 | `_new_constant` appends one `literal` into the next temporary and returns it |
| CodeGen.GenerateString | uc/uc_code.py:325-326 | a string constant appends nothing to the block and yields the text constant cached for its (type, text) pair: the cached one when present, otherwise a new `global` appended to the text section and recorded in the cache |
| CodeGen.GenerateId | uc/uc_code.py:335-345 | an identifier yields the next temporary and emits only fresh temporaries |
| CodeGen.GenerateUnary | uc/uc_code.py:238-246 | a unary node yields a temporary, using only fresh temporaries |
| CodeGen.GenerateAddress | uc/uc_code.py:248-259 | address-of or dereference yields a temporary, using only fresh temporaries |
| CodeGen.GenerateArrayRef | uc/uc_code.py:261-283 | indexing yields a temporary, using only fresh temporaries |
| CodeGen.Address | uc/uc_code.py:264-283 | scaling and then one `add` or `elem` keeps every temporary used fresh |
| CodeGen.GenerateAssignment | uc/uc_code.py:211-221 | an assignment returns the value operand's variable; a non-identifier target gets the corrected `store` (see Findings) |
| CodeGen.AssignmentShape | uc/uc_code.py:211-221 | the value's code comes first; an identifier target then gets one `store` into its named variable; any other target gets, in the corrected rule, its address code and one `store` through it (as written it gets `literal 0` and `elem`, see Findings) |
| CodeGen.GenerateAssignmentAsWritten | uc/uc_code.py:216-219 | as written, a non-identifier assignment also returns the value operand's variable |
| CodeGen.AssignmentAsWrittenShape | uc/uc_code.py:216-219 | as written, a non-identifier target ends with `literal 0` and an `elem` that overwrites the address register, and no store |
| CodeGen.GenerateBinary | uc/uc_code.py:223-236 | a binary or relational node yields a temporary, using only fresh temporaries |
| CodeGen.Combine | uc/uc_code.py:228-233 | the operator's instruction is appended last, into a fresh temporary above both operands' temporaries |
| CodeGen.ScaleIndex | uc/uc_code.py:264-271 | a size other than 1 appends `literal size` and `mul size, index` into a fresh offset temporary; size 1 uses the index itself and appends nothing |
| CodeGen.ScaleIndexFresh | uc/uc_code.py:264-271 | the scaled offset is a temporary issued during the node's own code |
| CodeGen.GenerateVarDecl | uc/uc_code.py:161-169 | a declaration emits `alloc`, then, only when an initialiser exists, the initialiser's code and a `store` of its value into the variable |
| CodeGen.BinaryShape | uc/uc_code.py:223-236 | the left operand's code, then the right's, then one `binary_op[op]` instruction into the next temporary |
| CodeGen.UnaryShape | uc/uc_code.py:238-246 | the operand's code, then one `not` into the next temporary; any operator other than `!` raises KeyError |
| CodeGen.IdShape | uc/uc_code.py:335-345 | an identifier emits exactly one `load` (or one `get` when `ref`) from its variable into the next temporary |
| CodeGen.AddressShape | uc/uc_code.py:248-259 | the operand is visited with `ref`; `&` or a `ref` request returns its address with nothing more; otherwise `literal 0` and one `elem` into a fresh temporary |
| CodeGen.ArrayRefShape | uc/uc_code.py:261-283 | the array's code, then the index's, then the scaling, then exactly one `add` (for `ref` or a non-primitive element) or one `elem` |
| CodeGen.ConstantsNotShared | uc/uc_code.py:302-323 | generating the same constant twice emits two `literal`s into two different temporaries |
| CodeGen.StringConstantShared | uc/uc_code.py:325-326 | generating the same string constant twice returns the same text constant and leaves the text section unchanged the second time |
| Translation.RunCode | uc/uc_interpreter.py:509-527 | running one instruction of straight-line code is one handler call |
| Translation.RunCodeConcat | uc/uc_interpreter.py:509-527 | running `a + b` runs `a`, then `b` from where `a` left off, and stops at the first exception |
| Translation.GenerateComputes | uc/uc_code.py:223-246 | for constants, identifiers and operators, the generated code succeeds exactly when the reference evaluator does, with the same exception otherwise; on success it changes only registers, leaves those below the first fresh temporary alone, and leaves the evaluator's value in the result temporary |
| Translation.ConstantComputes | uc/uc_code.py:302-311 | a constant's code leaves the constant in its temporary |
| Translation.IdComputes | uc/uc_code.py:335-345 | an identifier's code leaves the variable's cell contents in its temporary, or raises KeyError exactly when the name is unknown |
| Translation.UnaryComputes | uc/uc_code.py:238-246 | a unary node's code leaves the negated truthiness of its operand's value |
| Translation.BinaryComputes | uc/uc_code.py:223-236 | a binary node's code leaves the operator applied to the operands' values, evaluated left before right |
| Translation.AssignmentAsWrittenNeverStores | uc/uc_code.py:216-219 | as written, whatever runs after the target's address code leaves memory unchanged: the assignment never reaches memory |
| Translation.AssignmentStoresValue | uc/uc_code.py:211-221 | with the corrected `store`, running the assignment leaves the value in the cell at the target's address |
| Translation.AssignmentThroughAddressExample | uc/uc_code.py:216-219 | value 7 assigned through address 5: as written, cell 5 stays uninitialised; corrected, it holds 7 |
| Translation.DerefComputes | uc/uc_code.py:248-259 | from the operand's address in its register, a dereference's `literal 0; elem` leaves the cell at that address in the result temporary, changes only registers and keeps those below the operand's next temporary; an address that is not a number raises TypeError |
| Translation.ScaleComputes | uc/uc_code.py:265-269 | the scaling code leaves `size * index` in the offset temporary |
| Translation.VarDeclComputes | uc/uc_code.py:161-169 | a local declaration's code reserves the variable's cells and, with an initialiser, writes the initialiser's value into its first cell; without one it only reserves |

## Left out

- The interactive debugger (`_idb`, `_parse_input`, `_view_location`, `_assign_location`): it is an interactive console.
- `read` and the input buffer: input is blocking I/O. A `read` reaching the loop yields a `Blocked` outcome, which `Interp.Handle` states.
- `run_exit`: it ends the Python process, and `ExitInstr` comes from the `uc_ir` module, which is not part of this model.
- Floats: the `FloatType` branch of `div`, `sitofp`, `fptosi` and float constants. Values are ints, bools, one-character strings and `Uninit`.
- Strings other than one character produced by a value operation, such as `'a' + 'b'`, `'a' * 3` or `'a' * 0`: these end the step with an `Unrepresentable` fault rather than the Python string.
- `&`, `|`, unary `-`/`+` and the `__truediv__` dunders of the marker: no instruction of the model's set uses them.
- The Graphviz control-flow graph (`NodeData`, `CFG`) and the `lru_cache` around the visitor's method lookup: the first is a rendering sink, and the second does not change results.
- The command-line entry point and `show`: file and console plumbing.
- `as_tuple` and `values` of an instruction: no modelled operation uses them.
- Rendering of instruction classes without a usable `target` slot: the source raises there. `IR.FormatRaises` states that it fails, and nothing more.
- The fixed 10000-cell memory: memory is an unbounded map from integers, so a negative or very large address is an ordinary cell here. In the source it wraps or raises IndexError.
- `isalnum` on non-ASCII characters: `Text.Sanitize` treats only ASCII letters and digits as alphanumeric.
- `visit_FuncDef`, `visit_ParamList`, `visit_ArrayDecl`, `visit_Print` and `visit_Program`: they call a builder interface different from the one in `uc/uc_block.py`, or the control-flow graph.
- `visit_FuncCall`: it builds the `call` as `isntr` but appends the stale `instr`, so the call is never emitted.
- Interp.Exec on `call`: when the function's slot holds no number, the model raises TypeError at the `call`. The source raises it at the next fetch.
- Ops.Apply: `div` uses the corrected, absorbing `//` (`Ops.FloorDivValues`), so `div` with an `Uninit` operand gives `Uninit`. The source's `//` raises TypeError there (`Ops.FloorDivValuesAsWritten`).
- Interp.RunStore: `store` fails with AttributeError in the source as written, because `run_store` reads `store.source` and the stand-in `StoreInstr` has no such attribute (`IR.Arguments` records this for `format`). The model reads the `varname` slot as the source, as the interpreter's own instruction module evidently provides.
- Interp.Push: the caller's scope is saved by value. The source saves a reference to the `vars` dict, and the callee's `define` then replaces it with a new dict. So a scope write that the callee makes before its `define` would reach the caller in the source, but not in the model. Generated code enters every function at its `define`, so this is never seen there.
- Interp.Dispatch: the loop dispatches `alloc` under the intended opname `alloc` (`IR.OpName`). With `uc/uc_block.py`'s `AllocInstr` standing in, the source's loop would raise AttributeError on every `alloc` (`IR.OpNameAsWritten`).
- Interp.PrepGlobals: `globals` and `labels` are keyed by structural equality of variables. The source's dicts use the dataclass `==` and hash, which ignore a text constant's version. There, all text constants of one type share one key, and each later `global` overwrites the address of the earlier ones. The model gives each constant its own address, the corrected half of the `TextVariable` finding. Keys that are not text constants are unaffected.
- CodeGen.GenerateString: the literal cache is keyed by the type's name. The source passes the type object itself.
- CodeGen.Generate: the "yields a temporary" promise excludes assignment, whose result is the value operand's variable and may be a text constant.
- Translation.GenerateComputes: it covers constants, identifiers and the binary, relational and unary operators. The other forms are covered in part. A dereference's closing `literal 0` and `elem` are covered by `DerefComputes`, from the state the operand's code leaves, but the operand's own code is not. Address-of emits nothing of its own (`CodeGen.AddressShape`). For indexing, `ScaleComputes` reaches the offset temporary, and the closing `add` or `elem` is stated only as shape (`CodeGen.ArrayRefShape`). Assignment is covered by `AssignmentStoresValue` and local declarations by `VarDeclComputes`.
- Translation.VarDeclComputes: only local declarations are covered. A global declaration emits the same code, but `alloc` of a global name goes to the scope, not to `globals`.
- Code generation happens inside one function: the cursor holds the function being generated apart from the program's function list, as the source's `current` block does.

## Findings

| source | as written | input that shows it | evidently intended | confidence | as-written member | corrected member |
|---|---|---|---|---|---|---|
| uc/uc_interpreter.py:79-99 | `Uninitialized` defines `__div__`/`__truediv__` but no `__floordiv__`/`__rfloordiv__`, so integer `div` on an uninitialised operand raises TypeError | `div` with either operand `Uninit` | absorb like every other arithmetic operator and give `Uninit` | high, not executed | Ops.FloorDivValuesAsWritten | Ops.FloorDivValues |
| uc/uc_block.py:175-182 | `AllocInstr` spells its class attribute `opename`, so `alloc.opname` raises AttributeError in rendering; the running interpreter takes its `AllocInstr` from `uc_ir`, which is not part of this model, so the crash in the run loop holds only with this class standing in | any `alloc` instruction | `opname = "alloc"`, dispatched to `run_alloc` | medium, not executed | IR.OpNameAsWritten | Interp.HandlerDispatch |
| uc/uc_block.py:58-68 | `TextVariable` keeps `version` outside the dataclass fields, so two constants of one type with different versions compare and hash equal | `TextVariable("string", 0) == TextVariable("string", 1)` | distinct constants are distinct symbols, as their renderings are | medium, not executed | IR.TextEqualityIgnoresVersion | IR.TextRenderingKeepsVersion |
| uc/uc_code.py:216-219 | an assignment to a non-identifier target emits `literal 0` and `elem value, zero, target`, which reads memory into the target's register and stores nothing | `*p = 7` with `p` holding address 5 | `store value, target`, writing the value at the target address | high, not executed | Translation.AssignmentAsWrittenNeverStores | Translation.AssignmentStoresValue |
