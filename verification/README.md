# ZFX backend in Dafny

This project models the two final passes of the ZFX expression compiler and
proves properties of them:

- **Lowering (`LowerAccess`).** Symbolic statements (`SymbolStmt`,
  `LiterialStmt`, `BinaryOpStmt`, `AssignStmt`) become assembly-level
  statements over a file of 32 registers.
  - Symbols and literals are not loaded when they are visited. Each one
    records a deferred loader keyed by its statement id.
  - `lookup` finds the register that holds an id. On a miss it allocates one:
    - the lowest free register if any;
    - otherwise the least recently used register, with ties going to the
      lowest index.
  - An evicted value is saved to the first free spill slot (the pool grows
    when none is free) with an `st` instruction.
  - A spilled id is reloaded with an `ld` instruction. Its deferred loader then
    runs, or a "missing load" diagnostic is recorded.
- **Emission (`EmitAssembly`).** An assembly-level IR is rendered as text, one
  newline-terminated line per statement:
  - `add sub mul div mod` for the binary operators `+ - * / %`;
  - `mov neg` for the unary operators `+ -`;
  - `st val mem`, `ld val mem`, `lds dst name`, `ldi dst name` and `mov dst src`,
    where a name prints up to its first NUL, as `c_str()` does;
  - `error unexpected `kind`` for any other statement kind.

  An unknown operator aborts emission with an error naming the operator.

## Modules

- `base.dfy` (`Base`): `Option` and `Result`.
- `stmts.dfy` (`Stmts`): the statement IR as one datatype, with operands
  referenced by id, and the kind names used on the fallback line.
- `text.dfy` (`Text`): the text primitives the emitter needs and their
  partners:
  - decimal numerals and their parser;
  - splitting at the first occurrence of a character;
  - joining and splitting newline-terminated lines.
- `lower_access.dfy` (`LowerAccess`): the lowering pass as pure functions over
  an immutable pass state. The state holds the output IR, the registers, the
  spill slots, the spill table, the loaders and the diagnostics.
- `lower_props.dfy` (`LowerProps`): the lookup hit and miss paths in detail;
  the occupancy invariant and its preservation; the per-statement output
  shape; the consequences of the miss path not refreshing `last_used`.
- `emit_assembly.dfy` (`EmitAssembly`): the opcode tables and line formats, a
  line parser as the emitter's partner, and the read-back theorem.
- `pipeline.dfy` (`Pipeline`): the two passes composed, plus worked scenarios.

## Modelling decisions

- **Time.** Logical time ("now") is the length of the output IR, as in the
  source.
- **Free marker.** A free register and a free spill slot are marked by
  `Free == -1`, as in the source. Statement ids are natural numbers.
- **Deferred loaders.** The type-erased loader closures become a tagged value
  `Pending(SymbolLoader | LiteralLoader, name)`. `Load` gives the one
  instruction each closure would append.
- **Diagnostics.** The `cout` diagnostic of a miss without a loader is recorded
  in a `diags` sequence as `MissingLoad(stmtid, regid)`.
- **Lookup order.** C++ leaves unspecified the order in which the arguments of
  `emplace_back` are evaluated. The model fixes it:
  - a binary operation looks up destination, then left operand, then right
    operand;
  - an assignment looks up destination, then source.

  `VisitBinaryOpUnfold` states this order.
- **Store and load argument order.** `AsmMemoryStoreStmt` and
  `AsmMemoryLoadStmt` take `(mem, val)`, the order of the `emplace_back` calls
  in `LowerAccess.cpp`. The emitter prints `val` first.
- **Dead branch.** In `alloc_register`, the check on the victim's occupant
  (`LowerAccess.cpp:86`) always holds once the scan for a free register has
  failed, so the model has no branch for it. `AllocRegister` proves that the
  victim is occupied.
- **Assignments in the emitter.** `EmitAssembly` lists `AssignStmt` among its
  visited kinds but has no overload for it. A symbolic assignment therefore
  reaches the fallback and prints an `error unexpected` line.
- **Unary `+` and moves.** Unary `+` and a register move print the same `mov`
  line. The parser reads `mov` as a move, and the read-back theorem compares
  against `Readback`. `Readback` maps unary `+` to the move it prints as, and
  cuts each name at its first NUL, since only that part is printed.

## Behaviour of the code as written

Three behaviours of the code are easy to miss. The model keeps each of them,
and each one is proved.

- **Loader entries are not one-shot.** `lookup` never removes them
  (`LowerAccess.Lookup` keeps `loaders` unchanged). An id that is evicted and
  later looked up is reloaded with `ld` and then loaded again by its loader.
  The spill table is not erased on reload either, so entries of ids that are
  back in a register go stale. `SpillTableAccurate` therefore claims accuracy
  only for ids that are in no register.
- **The destination of a binary operation is looked up like an operand.**
  Suppose the destination id is in no register and has no loader, as for a
  fresh result id. Then the lookup records a `MissingLoad` diagnostic for that
  id, naming the register the instruction uses as destination
  (`LowerProps.BinaryOpReportsOwnId`). In the scenario
  `Pipeline.ScenarioAddLiterals`, the lowered IR is `ldi 1 1.0`, `ldi 2 2.0`,
  `add 0 1 2`: the destination takes register 0 and the operands take
  registers 1 and 2.
- **A miss does not refresh `last_used`.** Only a hit does. Once the register
  file is full, the registers of one instruction can collapse into one:
  - Two consecutive misses return the same register
    (`LowerProps.ConsecutiveMissesShareRegister`).
  - Take a binary operation whose three distinct ids all miss. It names a
    single register as destination and both operands, and that register ends
    up holding only the right operand
    (`LowerProps.BinaryOpCollapsesToOneRegister`).
  - Take an assignment whose two distinct ids both miss. It emits `mov r r`,
    and `r` ends up holding only the source
    (`LowerProps.AssignCollapsesToOneRegister`).

## Model

| member | source | states |
|---|---|---|
| LowerAccess.Init | ZFX/visitors/LowerAccess.cpp:42-60 | a fresh pass has an empty output IR, 32 free registers that were never used, and no slots, spill entries or loaders |
| LowerAccess.FindReg | ZFX/visitors/LowerAccess.cpp:94-99 | the register scan stops at the lowest register holding the id, or reports that none does |
| LowerAccess.FindFreeSlot | ZFX/visitors/LowerAccess.cpp:63-69 | the slot scan stops at the lowest free slot, or reports that none is free |
| LowerAccess.LruVictim | ZFX/visitors/LowerAccess.cpp:81-85 | the chosen register has the least `last_used`, and every lower register is strictly more recent (ties go to the lowest index) |
| LowerAccess.TempSave | ZFX/visitors/LowerAccess.cpp:62-74 | first fit: reuses the lowest free slot, otherwise appends one slot; the slot then holds the id, the spill table maps the id to it, and nothing else changes |
| LowerAccess.AllocRegister | ZFX/visitors/LowerAccess.cpp:76-91 | the lowest free register with no instruction when one is free; otherwise the occupied LRU victim (lowest index on ties) and exactly one appended store |
| LowerAccess.Load | ZFX/visitors/LowerAccess.cpp:117-133 | a deferred load is one instruction into the given register carrying the recorded name: `lds` exactly for a symbol, `ldi` for a literal |
| LowerAccess.Reload | ZFX/visitors/LowerAccess.cpp:103-107 | a spilled id frees its slot and appends one load from that slot; an id without a spill entry changes nothing |
| LowerAccess.RunLoader | ZFX/visitors/LowerAccess.cpp:109-113 | an id with a loader gets exactly that loader's instruction; one without gets a missing-load diagnostic and no instruction |
| LowerAccess.Materialize | ZFX/visitors/LowerAccess.cpp:100-114 | the miss path binds one register to the id without touching its `last_used`, and appends only allocator instructions |
| LowerAccess.Lookup | ZFX/visitors/LowerAccess.cpp:93-115 | the returned register is below 32 and holds the id; no other register changes; no register is freed; loaders are kept; only allocator instructions are appended |
| LowerAccess.VisitBinaryOp | ZFX/visitors/LowerAccess.cpp:135-142 | appends allocator instructions and then exactly one binary instruction carrying the statement's operator |
| LowerAccess.VisitAssign | ZFX/visitors/LowerAccess.cpp:144-149 | appends allocator instructions and then exactly one register move |
| LowerAccess.Visit | ZFX/visitors/LowerAccess.cpp:44-149 | every visit keeps the state well formed and only appends to the output |
| LowerAccess.VisitAll | ZFX/visitors/LowerAccess.cpp:152-156 | lowering a sequence keeps the state well formed and only appends to the output |
| LowerProps.AllocRegisterEvicts | ZFX/visitors/LowerAccess.cpp:81-90 | with every register occupied, allocation is `temp_save` of the victim's id followed by one store of the victim register to the chosen slot |
| LowerProps.LookupHit | ZFX/visitors/LowerAccess.cpp:94-98 | a hit returns the lowest register holding the id, sets its `last_used` to now, and changes nothing else |
| LowerProps.LookupMiss | ZFX/visitors/LowerAccess.cpp:100-114 | a miss binds the allocated register, reloads and frees a spilled slot, then runs the loader or records the diagnostic, in that order and independently |
| LowerProps.FirstLookupTakesLowestFree | ZFX/visitors/LowerAccess.cpp:76-114 | a first lookup while a register is free takes the lowest free register and appends at most its deferred load |
| LowerProps.ReloadRestoresValid | ZFX/visitors/LowerAccess.cpp:103-113 | the reload and the deferred load complete a miss into a state satisfying the occupancy invariant |
| LowerProps.MissWithFreeRegisterValid | ZFX/visitors/LowerAccess.cpp:77-80 | a miss that finds a free register preserves the occupancy invariant |
| LowerProps.MissWithFullFileValid | ZFX/visitors/LowerAccess.cpp:81-90 | a miss that evicts preserves the occupancy invariant; the evicted id is in no register afterwards, has a spill entry, and is found in the slot that entry names |
| LowerProps.LookupValid | ZFX/visitors/LowerAccess.cpp:93-115 | every lookup preserves the invariant: no id in two registers, and every spilled id is found in the slot its spill entry names |
| LowerProps.VisitValid | ZFX/visitors/LowerAccess.cpp:117-149 | every visit preserves the occupancy invariant |
| LowerProps.VisitAllValid | ZFX/visitors/LowerAccess.cpp:152-156 | lowering any sequence from a valid state ends in a valid state |
| LowerProps.LowerKeepsOccupancyInvariant | ZFX/visitors/LowerAccess.cpp:152-156 | `apply_lower_access` (`LowerAccess.ApplyLowerAccess`): after lowering any input from a fresh pass, no id occupies two registers and the spill table is accurate |
| LowerProps.LookupKeepsStamps | ZFX/visitors/LowerAccess.cpp:93-115 | a lookup never moves `now()` back, a hit stamps its register with the current `now()` and emits nothing, and no stamp runs ahead of `now()` |
| LowerProps.NowAdvances | ZFX/visitors/LowerAccess.cpp:53-55 | `now()` (`LowerAccess.Now`) counts emitted statements: a symbol or literal leaves it unchanged, every other statement advances it, and no register's `last_used` exceeds it |
| LowerProps.LowerStampsInPast | ZFX/visitors/LowerAccess.cpp:152-156 | after `apply_lower_access`, no register's `last_used` exceeds the length of the lowered IR |
| LowerProps.VisitRecordsLoader | ZFX/visitors/LowerAccess.cpp:117-133 | a symbol or literal appends nothing and only records or overwrites the loader for its id |
| LowerProps.VisitClonesOtherKinds | ZFX/visitors/LowerAccess.cpp:44-46 | any non-symbolic statement is appended unchanged and nothing else changes |
| LowerProps.VisitBinaryOpUnfold | ZFX/visitors/LowerAccess.cpp:135-142 | the three lookups run destination, left operand, right operand, each on the state the previous one left |
| LowerProps.VisitBinaryOpOutput | ZFX/visitors/LowerAccess.cpp:135-142 | one binary instruction after any allocator instructions, with the operator copied, registers below 32, and the right operand's id in its right register |
| LowerProps.VisitAssignOutput | ZFX/visitors/LowerAccess.cpp:144-149 | one move after any allocator instructions, with registers below 32 and the source's id in its source register |
| LowerProps.LookupReloadsOwnSlot | ZFX/visitors/LowerAccess.cpp:103-107 | under the invariant, a miss on a spilled id loads from the slot that holds that id and frees it |
| LowerProps.MissKeepsFileFull | ZFX/visitors/LowerAccess.cpp:100-101 | a miss in a full register file only rebinds one register, so the file stays full |
| LowerProps.BinaryOpReportsOwnId | ZFX/visitors/LowerAccess.cpp:109-113 | a binary operation's destination id that is in no register and has no loader gets a missing-load diagnostic naming the destination register of the emitted instruction |
| LowerProps.ConsecutiveMissesShareRegister | ZFX/visitors/LowerAccess.cpp:100-101 | in a full register file, a second miss right after a first returns the register the first one bound |
| LowerProps.BinaryOpCollapsesToOneRegister | ZFX/visitors/LowerAccess.cpp:135-142 | in a full register file, a binary operation whose three distinct ids all miss names one register three times, and that register holds the right operand |
| LowerProps.AssignCollapsesToOneRegister | ZFX/visitors/LowerAccess.cpp:144-149 | in a full register file, an assignment whose two distinct ids both miss names one register twice, and that register holds the source |
| LowerProps.VisitOutputs | ZFX/visitors/LowerAccess.cpp:44-149 | a visit appends only allocator instructions, moves, binary instructions over the statement's operator, or the statement itself when it is not symbolic |
| LowerProps.VisitAllOutputs | ZFX/visitors/LowerAccess.cpp:152-156 | lowering a sequence appends only what lowering its statements may produce |
| LowerProps.LowerOutputKinds | ZFX/visitors/LowerAccess.cpp:152-156 | `apply_lower_access` (`LowerAccess.ApplyLowerAccess`): every lowered statement comes from the input in one of those ways; a fully symbolic input lowers to assembly-level statements only |
| EmitAssembly.UnaryOpcode | ZFX/visitors/EmitAssembly.cpp:29-36 | `+` and `-` have opcodes (`mov`, `neg`); every other operator is an error naming it |
| EmitAssembly.BinaryOpcode | ZFX/visitors/EmitAssembly.cpp:41-51 | exactly `+ - * / %` have opcodes; every other operator is an error naming it |
| EmitAssembly.BinaryOpcodeInverse | ZFX/visitors/EmitAssembly.cpp:44-48 | the binary opcode table is one-to-one: each opcode reads back as its operator |
| EmitAssembly.EmitStmt | ZFX/visitors/EmitAssembly.cpp:25-74 | a statement fails exactly when its unary or binary operator has no opcode, with the error naming that operator |
| EmitAssembly.EmitLines | ZFX/visitors/EmitAssembly.cpp:77-81 | one line per statement in order; otherwise the error of the first failing statement; success exactly when every operator has an opcode |
| EmitAssembly.EmitOne | ZFX/visitors/EmitAssembly.cpp:20-23 | one statement is emitted as its line followed by a newline |
| EmitAssembly.EmitAppend | ZFX/visitors/EmitAssembly.cpp:77-81 | the text of `a + b` is the text of `a` followed by that of `b`, and it fails exactly when one of them fails |
| EmitAssembly.ParseUnaryLine | ZFX/visitors/EmitAssembly.cpp:29-39 | the line of a unary operation reads back as `neg dst src`, or as a move for `+` |
| EmitAssembly.ParseBinaryLine | ZFX/visitors/EmitAssembly.cpp:41-54 | the line of a binary operation reads back as the same operator over `dst lhs rhs` |
| EmitAssembly.ParseMemoryLine | ZFX/visitors/EmitAssembly.cpp:56-62 | `st val mem` and `ld val mem` read back as the store and load they were printed from |
| EmitAssembly.ParseLoadLine | ZFX/visitors/EmitAssembly.cpp:64-70 | `lds dst name` and `ldi dst name` read back with the printed name intact, spaces included |
| EmitAssembly.LoadNameStopsAtNul | ZFX/visitors/EmitAssembly.cpp:68-70 | a name prints only up to its first NUL: `ldi` of `"ab\0c"` prints `ldi 0 ab` |
| EmitAssembly.ParseMoveOrLoadLine | ZFX/visitors/EmitAssembly.cpp:64-74 | move and load lines read back as the statements they were printed from, with each name cut at its first NUL |
| EmitAssembly.ParseEmitStmt | ZFX/visitors/EmitAssembly.cpp:29-74 | every assembly-level line reads back as its statement, with unary `+` read as a move and names cut at their first NUL |
| EmitAssembly.UnaryPlusPrintsAsMove | ZFX/visitors/EmitAssembly.cpp:29-39 | unary `+` and a register move print the same line |
| EmitAssembly.UnexpectedKindLine | ZFX/visitors/EmitAssembly.cpp:25-27 | a kind without a format does not fail; it prints a line whose first field is `error` and which names its kind |
| EmitAssembly.EmitUnexpectedAlone | ZFX/visitors/EmitAssembly.cpp:25-27 | emitted alone, such a kind yields exactly its error line and a newline |
| EmitAssembly.AsmLineIsNotError | ZFX/visitors/EmitAssembly.cpp:29-74 | no assembly-level statement prints a line whose first field is `error` |
| EmitAssembly.ApplyEmitAssembly | ZFX/visitors/EmitAssembly.cpp:77-81 | emission succeeds exactly when every unary and binary operator has an opcode; a failure carries the error of the first failing statement; a non-empty text ends with a newline |
| EmitAssembly.NoErrorLines | ZFX/visitors/EmitAssembly.cpp:5-81 | an IR of assembly-level statements with supported operators is emitted in full, and no per-statement line is an `error` line |
| EmitAssembly.NoErrorLinesInText | ZFX/visitors/EmitAssembly.cpp:77-81 | when, in addition, no printed name holds a newline, the emitted text cut at its newlines has one line per statement and none of them is an `error` line |
| EmitAssembly.NewlineInNameSplitsText | ZFX/visitors/EmitAssembly.cpp:64-70 | a load whose name holds a newline followed by `error ` passes the per-statement hypothesis, yet its text has a second line that is an `error` line |
| EmitAssembly.LineHasNoNewline | ZFX/visitors/EmitAssembly.cpp:20-23 | a line contains no newline of its own when the printed part of its name contains none |
| EmitAssembly.ReadEmittedText | ZFX/visitors/EmitAssembly.cpp:77-81 | splitting the emitted text at newlines gives one line per statement, and each reads back as its statement |
| Text.CString | ZFX/visitors/EmitAssembly.cpp:65-69 | the text `%s` prints for `c_str()` is the longest NUL-free prefix of the name, and all of it when it holds no NUL |
| Text.ParseNatToString | ZFX/visitors/EmitAssembly.cpp:37-38 | a `%d` numeral of a natural number parses back to that number |
| Text.SplitJoinLines | ZFX/visitors/EmitAssembly.cpp:20-23 | newline-terminated lines without newlines of their own split back into the same lines |
| Text.JoinLinesAppend | ZFX/visitors/EmitAssembly.cpp:20-23 | the text of two runs of lines is the first text followed by the second |
| Pipeline.CompileHasNoErrorLines | ZFX/visitors/EmitAssembly.cpp:77-81 | lowering an input of symbolic statements with supported operators and emitting the result succeeds, and no per-statement line is an `error` line |
| Pipeline.LookupOneLine | ZFX/visitors/LowerAccess.cpp:100-114 | a lookup emits loads only from recorded loaders, so when every loader name prints on one line, every emitted load does too |
| Pipeline.CompiledTextHasNoErrorLines | ZFX/visitors/EmitAssembly.cpp:77-81 | when, in addition, no symbol or literal name prints a newline, the compiled text cut at its newlines has one line per lowered statement and none of them is an `error` line |
| Pipeline.LoweredOutputEmittable | ZFX/visitors/LowerAccess.cpp:135-149 | everything lowering produces from such an input has a line format and an opcode |
| Pipeline.ScenarioLoaders | ZFX/visitors/LowerAccess.cpp:117-133 | two literals record two loaders and emit nothing |
| Pipeline.ScenarioAdd | ZFX/visitors/LowerAccess.cpp:135-142 | after them, `+` emits `ldi 1 1.0`, `ldi 2 2.0`, `add 0 1 2` and reports the destination's missing load |
| Pipeline.ScenarioAddLiterals | ZFX/visitors/LowerAccess.cpp:152-156 | the whole input lowers to those three instructions and one diagnostic, and emits those three lines |
| Pipeline.ScenarioAddLiteralsText | ZFX/visitors/EmitAssembly.cpp:41-70 | the three instructions print as `ldi 1 1.0`, `ldi 2 2.0`, `add 0 1 2` |
| Pipeline.ScenarioInvalidUnaryOp | ZFX/visitors/EmitAssembly.cpp:34 | unary `*` aborts emission with an error naming `*` |
| Pipeline.ScenarioUnloweredSymbol | ZFX/visitors/EmitAssembly.cpp:25-27 | a symbol that was never lowered prints ``error unexpected `SymbolStmt` `` and does not fail |

## Left out

- `Stmts.h` and `IRVisitor.h` are not part of this model. The statement fields,
  the argument order of the assembly statement constructors, and kind-based
  dispatch are taken from their uses in the two passes. Dispatch is a `match`
  with a fallback case.
- Assembly statements carry no statement id of their own. The ids the IR
  container assigns to appended statements are not modelled.
- Cloning a fallback statement is modelled as appending the same value.
- `typeid(*stmt).name()` is implementation-defined (usually a mangled name),
  so `KindName` uses the class name instead.
- The `format`/`stringstream` machinery is reduced to `%d` as a decimal
  numeral, `%s` of `c_str()` as the name up to its first NUL, and `endl` as
  `'\n'`.
- `error(...)` in the emitter is modelled as an `Err` result. The partial text
  is discarded, since `apply_emit_assembly` never returns it.
- The unused `regid` parameter of `temp_save` is dropped.
- The `LoaderCallback` type erasure at `LowerAccess.cpp:5-31` is replaced by
  the tagged `Pending` value.
- Integer widths: register ids, slot ids, statement ids and `now()` are
  unbounded. `now()` converts `ir->size()` to a 32-bit `int`, so the model
  agrees with the source only for lowered IRs with fewer than 2^31
  statements.
- Negative statement ids are not modelled. Ids are natural numbers, so no id
  can be confused with the `-1` free marker.
- LowerProps.VisitBinaryOpOutput: states the right operand's register only.
  By `BinaryOpCollapsesToOneRegister`, the destination and left registers may
  no longer hold their ids after the later lookups.
- EmitAssembly.ReadEmittedText: requires the printed part of each load name
  to hold no newline. Such a newline splits its line, and the text then has
  more lines than the IR has statements. Names read back cut at their first
  NUL, since only that part is printed.
- EmitAssembly.NoErrorLines: states that no per-statement line is an `error`
  line, not that the text has none. A newline in a printed name splits a line,
  and the part after it may begin with `error` (`NewlineInNameSplitsText`).
  `NoErrorLinesInText` states the text-level property under a name hypothesis.
- Pipeline.CompileHasNoErrorLines: states that no per-statement line is an
  `error` line, not that the compiled text has none, for the same reason.
  `CompiledTextHasNoErrorLines` states the text-level property when no symbol
  or literal name prints a newline.
- Pipeline.CompileHasNoErrorLines: requires binary operators from the table.
  Lowering copies any operator unchanged, so an unsupported one reaches the
  emitter and aborts emission.
- The rest of the repository (node graph, primitives, shaders, user
  interface) is outside this model.
