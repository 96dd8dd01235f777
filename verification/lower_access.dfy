/**
 * The lowering pass: symbolic statements become assembly-level statements
 * over a file of 32 registers, with least-recently-used eviction to a
 * growable pool of spill slots and lazy loading of symbols and literals.
 *
 * The pass state is an immutable record threaded through pure functions.
 * Logical time ("now") is the length of the output IR.  The three operand
 * lookups of a binary operation are evaluated destination, left operand,
 * right operand, in that order; the two lookups of an assignment destination
 * first, then source.
 */
module LowerAccess {
  import opened Stmts

  /** Size of the register file. */
  const NumRegs: nat := 32
  /** Marks a free register (no current statement) or a free memory slot. */
  const Free: int := -1

  /** One register: when it was last hit, and which statement id it holds (or `Free`). */
  datatype RegInfo = RegInfo(lastUsed: int, currStmtid: int)

  datatype LoaderKind = SymbolLoader | LiteralLoader

  /** A deferred load of a symbol or a literal, run when its id is first needed in a register. */
  datatype Pending = Pending(kind: LoaderKind, name: string)

  /** The "missing load from $stmtid to r<regid>" diagnostic. */
  datatype Diagnostic = MissingLoad(stmtid: nat, regid: nat)

  datatype State = State(
    ir: seq<Stmt>,                  // output IR, appended to only
    regs: seq<RegInfo>,             // the register file
    memories: seq<int>,             // spill slots: a statement id or Free
    memoriesLut: map<nat, nat>,     // statement id -> spill slot it was last saved to
    loaders: map<nat, Pending>,     // statement id -> its deferred load
    diags: seq<Diagnostic>)         // diagnostics, in the order they were reported

  /** The shape every pass state keeps. */
  predicate WellFormed(s: State) {
    && |s.regs| == NumRegs
    && (forall i :: 0 <= i < |s.regs| ==> s.regs[i].currStmtid >= Free)
    && (forall k :: 0 <= k < |s.memories| ==> s.memories[k] >= Free)
    && (forall id :: id in s.memoriesLut ==> s.memoriesLut[id] < |s.memories|)
  }

  /** Whether some register holds `id`. */
  predicate InRegs(regs: seq<RegInfo>, id: int) {
    exists i :: 0 <= i < |regs| && regs[i].currStmtid == id
  }

  /** The instructions the allocator inserts: spill stores, reloads and deferred loads. */
  predicate IsTransfer(s: Stmt) {
    s.AsmMemoryStoreStmt? || s.AsmMemoryLoadStmt? || s.AsmLoadSymbolStmt? || s.AsmLoadConstStmt?
  }

  /** `after` extends `before` with allocator instructions only. */
  predicate AppendsTransfers(before: seq<Stmt>, after: seq<Stmt>) {
    && |after| >= |before| && after[..|before|] == before
    && forall k :: |before| <= k < |after| ==> IsTransfer(after[k])
  }

  /** Every register occupied in `before` is still occupied in `after`. */
  predicate NeverFreed(before: seq<RegInfo>, after: seq<RegInfo>)
    requires |before| == |after|
  {
    forall i :: 0 <= i < |before| && before[i].currStmtid != Free ==> after[i].currStmtid != Free
  }

  lemma AppendsTransfersTrans(a: seq<Stmt>, b: seq<Stmt>, c: seq<Stmt>)
    requires AppendsTransfers(a, b) && AppendsTransfers(b, c)
    ensures AppendsTransfers(a, c)
  {
    assert c[..|a|] == c[..|b|][..|a|];
  }

  /** The state of a fresh pass: empty output, all 32 registers free and never used. */
  function Init(): (s: State)
    ensures WellFormed(s)
    ensures forall i :: 0 <= i < NumRegs ==> s.regs[i] == RegInfo(-1, Free)
    ensures s.ir == [] && s.memories == [] && s.memoriesLut == map[] && s.loaders == map[]
  {
    State([], seq(NumRegs, _ => RegInfo(-1, Free)), [], map[], map[], [])
  }

  /** Logical time: the number of statements emitted so far. */
  function Now(s: State): nat {
    |s.ir|
  }

  function Emit(s: State, stmt: Stmt): State {
    s.(ir := s.ir + [stmt])
  }

  /** The scan for the lowest register holding `id`, starting at `from`; `|regs|` when none does. */
  function FindReg(regs: seq<RegInfo>, id: int, from: nat): (r: nat)
    requires from <= |regs|
    ensures from <= r <= |regs|
    ensures r < |regs| ==> regs[r].currStmtid == id
    ensures forall j :: from <= j < r ==> regs[j].currStmtid != id
    decreases |regs| - from
  {
    if from == |regs| then from
    else if regs[from].currStmtid == id then from
    else FindReg(regs, id, from + 1)
  }

  /** The first-fit scan for the lowest free spill slot, starting at `from`; `|memories|` when none is free. */
  function FindFreeSlot(memories: seq<int>, from: nat): (m: nat)
    requires from <= |memories|
    ensures from <= m <= |memories|
    ensures m < |memories| ==> memories[m] == Free
    ensures forall k :: from <= k < m ==> memories[k] != Free
    decreases |memories| - from
  {
    if from == |memories| then from
    else if memories[from] == Free then from
    else FindFreeSlot(memories, from + 1)
  }

  /**
   * The eviction scan: `best` is the first register with the least `lastUsed`
   * among those before `i`; a later register replaces it only when strictly
   * older, so ties go to the lowest index.
   */
  function LruFrom(regs: seq<RegInfo>, i: nat, best: nat): (r: nat)
    requires best < i <= |regs|
    requires forall j :: 0 <= j < i ==> regs[best].lastUsed <= regs[j].lastUsed
    requires forall j :: 0 <= j < best ==> regs[j].lastUsed > regs[best].lastUsed
    ensures r < |regs|
    ensures forall j :: 0 <= j < |regs| ==> regs[r].lastUsed <= regs[j].lastUsed
    ensures forall j :: 0 <= j < r ==> regs[j].lastUsed > regs[r].lastUsed
    decreases |regs| - i
  {
    if i == |regs| then best
    else LruFrom(regs, i + 1, if regs[i].lastUsed < regs[best].lastUsed then i else best)
  }

  /** The least recently used register, the lowest index among equally old ones. */
  function LruVictim(regs: seq<RegInfo>): (r: nat)
    requires |regs| > 0
    ensures r < |regs|
    ensures forall j :: 0 <= j < |regs| ==> regs[r].lastUsed <= regs[j].lastUsed
    ensures forall j :: 0 <= j < r ==> regs[j].lastUsed > regs[r].lastUsed
  {
    LruFrom(regs, 1, 0)
  }

  /**
   * Saves `stmtid` to the first free spill slot, growing the pool by one slot
   * when none is free, and records the slot in the spill table.
   */
  function TempSave(s: State, stmtid: nat): (res: (State, nat))
    requires WellFormed(s)
    ensures var (t, m) := res;
      && WellFormed(t)
      && m <= |s.memories|
      && (m < |s.memories| ==> s.memories[m] == Free)
      && (forall k :: 0 <= k < m ==> s.memories[k] != Free)
      && |t.memories| == (if m < |s.memories| then |s.memories| else |s.memories| + 1)
      && t.memories[m] == stmtid
      && (forall k :: 0 <= k < |s.memories| && k != m ==> t.memories[k] == s.memories[k])
      && t.memoriesLut == s.memoriesLut[stmtid := m]
      && t.ir == s.ir && t.regs == s.regs && t.loaders == s.loaders && t.diags == s.diags
  {
    var m := FindFreeSlot(s.memories, 0);
    if m < |s.memories| then
      (s.(memories := s.memories[m := stmtid], memoriesLut := s.memoriesLut[stmtid := m]), m)
    else
      (s.(memories := s.memories + [stmtid], memoriesLut := s.memoriesLut[stmtid := m]), m)
  }

  /**
   * Picks a register for a new value: the lowest free one if any; otherwise
   * the least recently used one, whose current value is first saved to a spill
   * slot with one store instruction.
   */
  function AllocRegister(s: State): (res: (State, nat))
    requires WellFormed(s)
    ensures var (t, r) := res;
      && WellFormed(t)
      && r < NumRegs
      && t.regs == s.regs && t.loaders == s.loaders && t.diags == s.diags
      && (InRegs(s.regs, Free) ==>
            && s.regs[r].currStmtid == Free
            && (forall j :: 0 <= j < r ==> s.regs[j].currStmtid != Free)
            && t == s)
      && (!InRegs(s.regs, Free) ==>
            && s.regs[r].currStmtid >= 0
            && (forall j :: 0 <= j < NumRegs ==> s.regs[r].lastUsed <= s.regs[j].lastUsed)
            && (forall j :: 0 <= j < r ==> s.regs[j].lastUsed > s.regs[r].lastUsed)
            && |t.ir| == |s.ir| + 1 && t.ir[..|s.ir|] == s.ir && t.ir[|s.ir|].AsmMemoryStoreStmt?)
  {
    var f := FindReg(s.regs, Free, 0);
    if f < |s.regs| then
      (s, f)
    else
      var v := LruVictim(s.regs);
      var (u, m) := TempSave(s, s.regs[v].currStmtid as nat);
      (Emit(u, AsmMemoryStoreStmt(m, v)), v)
  }

  /** The load instruction a deferred loader emits into register `regid`. */
  function Load(p: Pending, regid: nat): (st: Stmt)
    ensures IsTransfer(st)
    ensures st.AsmLoadSymbolStmt? || st.AsmLoadConstStmt?
    ensures st.AsmLoadSymbolStmt? <==> p.kind == SymbolLoader
    ensures st.dst == regid && st.name == p.name
  {
    match p.kind
    case SymbolLoader => AsmLoadSymbolStmt(regid, p.name)
    case LiteralLoader => AsmLoadConstStmt(regid, p.name)
  }

  /** Reloads `stmtid` into register `r` when it has a spill-table entry, freeing that slot. */
  function Reload(s: State, stmtid: nat, r: nat): (t: State)
    requires WellFormed(s)
    ensures WellFormed(t)
    ensures t.regs == s.regs && t.loaders == s.loaders && t.diags == s.diags && t.memoriesLut == s.memoriesLut
    ensures stmtid in s.memoriesLut ==>
      && t.ir == s.ir + [AsmMemoryLoadStmt(s.memoriesLut[stmtid], r)]
      && t.memories == s.memories[s.memoriesLut[stmtid] := Free]
    ensures stmtid !in s.memoriesLut ==> t == s
  {
    if stmtid in s.memoriesLut then
      var m := s.memoriesLut[stmtid];
      Emit(s.(memories := s.memories[m := Free]), AsmMemoryLoadStmt(m, r))
    else s
  }

  /** Runs the deferred loader of `stmtid` into register `r`, or reports that it has none. */
  function RunLoader(s: State, stmtid: nat, r: nat): (t: State)
    requires WellFormed(s)
    ensures WellFormed(t)
    ensures t.regs == s.regs && t.loaders == s.loaders && t.memories == s.memories && t.memoriesLut == s.memoriesLut
    ensures stmtid in s.loaders ==> t.ir == s.ir + [Load(s.loaders[stmtid], r)] && t.diags == s.diags
    ensures stmtid !in s.loaders ==> t.ir == s.ir && t.diags == s.diags + [MissingLoad(stmtid, r)]
  {
    if stmtid in s.loaders then Emit(s, Load(s.loaders[stmtid], r))
    else s.(diags := s.diags + [MissingLoad(stmtid, r)])
  }

  /**
   * The miss path of `Lookup`: binds a freshly allocated register to `stmtid`
   * (leaving its `lastUsed` as it was), reloads a spilled value, then runs the
   * deferred loader or reports that there is none.
   */
  function Materialize(s: State, stmtid: nat): (res: (State, nat))
    requires WellFormed(s)
    ensures var (t, r) := res;
      && WellFormed(t)
      && r < NumRegs
      && t.regs == s.regs[r := RegInfo(s.regs[r].lastUsed, stmtid)]
      && t.loaders == s.loaders
      && AppendsTransfers(s.ir, t.ir)
  {
    var (a, r) := AllocRegister(s);
    var bound := a.(regs := a.regs[r := a.regs[r].(currStmtid := stmtid)]);
    (RunLoader(Reload(bound, stmtid, r), stmtid, r), r)
  }

  /**
   * The register holding `stmtid`, materialising it when no register does:
   * a fresh register is bound to it, a spilled value is reloaded (freeing its
   * slot), and then its deferred loader runs if it has one, or a missing-load
   * diagnostic is recorded.  The reload and the loader are independent steps:
   * a spilled literal gets both instructions.
   */
  function Lookup(s: State, stmtid: nat): (res: (State, nat))
    requires WellFormed(s)
    ensures var (t, r) := res;
      && WellFormed(t)
      && r < NumRegs
      && t.regs[r].currStmtid == stmtid
      && t.loaders == s.loaders
      && AppendsTransfers(s.ir, t.ir)
      && (forall i :: 0 <= i < NumRegs && i != r ==> t.regs[i] == s.regs[i])
      && NeverFreed(s.regs, t.regs)
  {
    var h := FindReg(s.regs, stmtid, 0);
    if h < |s.regs| then
      (s.(regs := s.regs[h := s.regs[h].(lastUsed := Now(s))]), h)
    else
      Materialize(s, stmtid)
  }

  /** Emits `op` over the registers of the destination, left and right operand ids, looked up in that order. */
  function VisitBinaryOp(s: State, op: string, id: nat, lhs: nat, rhs: nat): (t: State)
    requires WellFormed(s)
    ensures WellFormed(t)
    ensures |t.ir| > |s.ir| && t.ir[..|s.ir|] == s.ir
    ensures forall k :: |s.ir| <= k < |t.ir| - 1 ==> IsTransfer(t.ir[k])
    ensures t.ir[|t.ir| - 1].AsmBinaryOpStmt? && t.ir[|t.ir| - 1].op == op
    ensures t.loaders == s.loaders && NeverFreed(s.regs, t.regs)
  {
    var (s1, d) := Lookup(s, id);
    var (s2, l) := Lookup(s1, lhs);
    var (s3, r) := Lookup(s2, rhs);
    AppendsTransfersTrans(s.ir, s1.ir, s2.ir);
    AppendsTransfersTrans(s.ir, s2.ir, s3.ir);
    Emit(s3, AsmBinaryOpStmt(op, d, l, r))
  }

  /** Emits a register move from the source id's register to the destination id's register. */
  function VisitAssign(s: State, dst: nat, src: nat): (t: State)
    requires WellFormed(s)
    ensures WellFormed(t)
    ensures |t.ir| > |s.ir| && t.ir[..|s.ir|] == s.ir
    ensures forall k :: |s.ir| <= k < |t.ir| - 1 ==> IsTransfer(t.ir[k])
    ensures t.ir[|t.ir| - 1].AsmAssignStmt?
    ensures t.loaders == s.loaders && NeverFreed(s.regs, t.regs)
  {
    var (s1, d) := Lookup(s, dst);
    var (s2, r) := Lookup(s1, src);
    AppendsTransfersTrans(s.ir, s1.ir, s2.ir);
    Emit(s2, AsmAssignStmt(d, r))
  }

  /** Lowers one statement. */
  function Visit(s: State, stmt: Stmt): (t: State)
    requires WellFormed(s)
    ensures WellFormed(t)
    ensures |t.ir| >= |s.ir| && t.ir[..|s.ir|] == s.ir
  {
    match stmt
    case SymbolStmt(id, name) => s.(loaders := s.loaders[id := Pending(SymbolLoader, name)])
    case LiteralStmt(id, name) => s.(loaders := s.loaders[id := Pending(LiteralLoader, name)])
    case BinaryOpStmt(id, op, lhs, rhs) => VisitBinaryOp(s, op, id, lhs, rhs)
    case AssignStmt(_, dst, src) => VisitAssign(s, dst, src)
    case _ => Emit(s, stmt)
  }

  /** Lowers the statements in order. */
  function VisitAll(s: State, stmts: seq<Stmt>): (t: State)
    requires WellFormed(s)
    ensures WellFormed(t)
    ensures |t.ir| >= |s.ir| && t.ir[..|s.ir|] == s.ir
    decreases |stmts|
  {
    if |stmts| == 0 then s else VisitAll(Visit(s, stmts[0]), stmts[1..])
  }

  /** The lowered IR and the diagnostics reported while lowering. */
  datatype Lowered = Lowered(ir: seq<Stmt>, diags: seq<Diagnostic>)

  function ApplyLowerAccess(input: seq<Stmt>): Lowered {
    var t := VisitAll(Init(), input);
    Lowered(t.ir, t.diags)
  }
}
