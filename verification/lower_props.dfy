/**
 * Properties of the lowering pass: the exact effect of each allocator step,
 * the occupancy invariant the pass keeps, and what each visited statement
 * contributes to the output.
 */
module LowerProps {
  import opened Stmts
  import opened LowerAccess

  /** The full-register-file path of `AllocRegister`: the victim's value goes to a first-fit slot with one store. */
  lemma AllocRegisterEvicts(s: State)
    requires WellFormed(s)
    requires !InRegs(s.regs, Free)
    ensures var (t, r) := AllocRegister(s);
      && s.regs[r].currStmtid >= 0
      && var (u, m) := TempSave(s, s.regs[r].currStmtid as nat);
         && t == u.(ir := s.ir + [AsmMemoryStoreStmt(m, r)])
         && t.memories[m] == s.regs[r].currStmtid
         && t.memoriesLut[s.regs[r].currStmtid as nat] == m
  {
  }

  /** A hit refreshes the lowest register holding the id and emits nothing. */
  lemma LookupHit(s: State, stmtid: nat)
    requires WellFormed(s)
    requires InRegs(s.regs, stmtid)
    ensures var (t, r) := Lookup(s, stmtid);
      && s.regs[r].currStmtid == stmtid
      && (forall j :: 0 <= j < r ==> s.regs[j].currStmtid != stmtid)
      && t.regs[r].lastUsed == Now(s)
      && t == s.(regs := s.regs[r := RegInfo(Now(s), stmtid)])
  {
  }

  /**
   * A miss binds the allocated register without refreshing its time, then
   * appends a reload when the id has a spill-table entry (freeing that slot)
   * and, independently, the deferred load when the id has a loader, or
   * records a missing-load diagnostic.
   */
  lemma LookupMiss(s: State, stmtid: nat)
    requires WellFormed(s)
    requires !InRegs(s.regs, stmtid)
    ensures var (t, r) := Lookup(s, stmtid);
      var (a, r0) := AllocRegister(s);
      && r == r0
      && t.regs == s.regs[r := RegInfo(s.regs[r].lastUsed, stmtid)]
      && t.ir == a.ir
           + (if stmtid in s.memoriesLut then [AsmMemoryLoadStmt(s.memoriesLut[stmtid], r)] else [])
           + (if stmtid in s.loaders then [Load(s.loaders[stmtid], r)] else [])
      && t.diags == s.diags + (if stmtid in s.loaders then [] else [MissingLoad(stmtid, r)])
      && t.memoriesLut == a.memoriesLut
      && t.memories == (if stmtid in s.memoriesLut then a.memories[s.memoriesLut[stmtid] := Free]
                        else a.memories)
  {
    var (a, r) := AllocRegister(s);
    if !InRegs(s.regs, Free) {
      AllocRegisterEvicts(s);
      assert s.regs[r].currStmtid != stmtid;
    }
    assert a.memoriesLut.Keys - {stmtid} >= s.memoriesLut.Keys - {stmtid};
    assert stmtid in a.memoriesLut <==> stmtid in s.memoriesLut;
    assert stmtid in s.memoriesLut ==> a.memoriesLut[stmtid] == s.memoriesLut[stmtid];
  }

  /** No statement id is held by two registers. */
  predicate NoDuplicateIds(regs: seq<RegInfo>) {
    forall i, j :: 0 <= i < |regs| && 0 <= j < |regs| && i != j && regs[i].currStmtid != Free
      ==> regs[i].currStmtid != regs[j].currStmtid
  }

  /**
   * Every occupied spill slot holds an id that is in no register and whose
   * spill-table entry names that slot; every id in the spill table that is in
   * no register is found in the slot its entry names.  (Entries of ids that are
   * back in a register may be stale: a reload does not erase them.)
   */
  predicate SpillTableAccurate(s: State)
    requires WellFormed(s)
  {
    && (forall k :: 0 <= k < |s.memories| && s.memories[k] != Free ==>
          && s.memories[k] as nat in s.memoriesLut
          && s.memoriesLut[s.memories[k] as nat] == k
          && !InRegs(s.regs, s.memories[k]))
    && (forall id :: id in s.memoriesLut && !InRegs(s.regs, id) ==> s.memories[s.memoriesLut[id]] == id)
  }

  /** The invariant the pass keeps between lookups. */
  predicate Valid(s: State) {
    WellFormed(s) && NoDuplicateIds(s.regs) && SpillTableAccurate(s)
  }

  /**
   * A first lookup of an id that was never spilled, while a register is free,
   * takes the lowest free register and appends at most its deferred load.
   */
  lemma FirstLookupTakesLowestFree(s: State, stmtid: nat, k: nat)
    requires WellFormed(s)
    requires !InRegs(s.regs, stmtid) && stmtid !in s.memoriesLut
    requires k < NumRegs && s.regs[k].currStmtid == Free
    requires forall j :: 0 <= j < k ==> s.regs[j].currStmtid != Free
    ensures Lookup(s, stmtid) == (s.(
      regs := s.regs[k := RegInfo(s.regs[k].lastUsed, stmtid)],
      ir := s.ir + (if stmtid in s.loaders then [Load(s.loaders[stmtid], k)] else []),
      diags := s.diags + (if stmtid in s.loaders then [] else [MissingLoad(stmtid, k)])), k)
  {
    assert InRegs(s.regs, Free);
    LookupMiss(s, stmtid);
  }

  /** Binding register `r` to `id` leaves every other register's occupant in place. */
  lemma InRegsAfterBind(regs: seq<RegInfo>, r: nat, info: RegInfo, x: int)
    requires r < |regs| && NoDuplicateIds(regs) && x != Free
    ensures InRegs(regs[r := info], x) <==> info.currStmtid == x || (InRegs(regs, x) && regs[r].currStmtid != x)
  {
    var regs' := regs[r := info];
    if InRegs(regs', x) {
      var i :| 0 <= i < |regs'| && regs'[i].currStmtid == x;
      if i != r {
        assert regs[i].currStmtid == x;
      }
    }
    if info.currStmtid == x {
      assert regs'[r].currStmtid == x;
    } else if InRegs(regs, x) && regs[r].currStmtid != x {
      var i :| 0 <= i < |regs| && regs[i].currStmtid == x;
      assert regs'[i].currStmtid == x;
    }
  }

  /** Registers with the same occupants hold the same ids. */
  lemma InRegsSameOccupants(regs: seq<RegInfo>, regs': seq<RegInfo>, x: int)
    requires |regs| == |regs'|
    requires forall i :: 0 <= i < |regs| ==> regs[i].currStmtid == regs'[i].currStmtid
    ensures InRegs(regs, x) <==> InRegs(regs', x)
  {
    if InRegs(regs, x) {
      var i :| 0 <= i < |regs| && regs[i].currStmtid == x;
      assert regs'[i].currStmtid == x;
    }
    if InRegs(regs', x) {
      var i :| 0 <= i < |regs'| && regs'[i].currStmtid == x;
      assert regs[i].currStmtid == x;
    }
  }

  /**
   * The state right after binding register `r` to `stmtid`: valid, except that
   * `stmtid` may still occupy the spill slot its entry names, awaiting reload.
   */
  predicate AwaitingReload(b: State, stmtid: nat, r: nat) {
    && WellFormed(b)
    && r < NumRegs
    && b.regs[r].currStmtid == stmtid
    && NoDuplicateIds(b.regs)
    && (forall k :: 0 <= k < |b.memories| && b.memories[k] != Free ==>
          && b.memories[k] as nat in b.memoriesLut
          && b.memoriesLut[b.memories[k] as nat] == k
          && (b.memories[k] == stmtid || !InRegs(b.regs, b.memories[k])))
    && (forall id :: id in b.memoriesLut && !InRegs(b.regs, id) ==> b.memories[b.memoriesLut[id]] == id)
    && (stmtid in b.memoriesLut ==> b.memories[b.memoriesLut[stmtid]] == stmtid)
  }

  /** The reload and the deferred load complete a lookup miss into a valid state. */
  lemma ReloadRestoresValid(b: State, stmtid: nat, r: nat)
    requires AwaitingReload(b, stmtid, r)
    ensures Valid(RunLoader(Reload(b, stmtid, r), stmtid, r))
  {
    var t := RunLoader(Reload(b, stmtid, r), stmtid, r);
    assert t.regs == b.regs && t.memoriesLut == b.memoriesLut;
    assert InRegs(b.regs, stmtid) by { assert b.regs[r].currStmtid == stmtid; }
    forall k | 0 <= k < |t.memories| && t.memories[k] != Free
      ensures t.memories[k] as nat in t.memoriesLut
      ensures t.memoriesLut[t.memories[k] as nat] == k
      ensures !InRegs(t.regs, t.memories[k])
    {
      assert t.memories[k] == b.memories[k];
    }
    forall id | id in t.memoriesLut && !InRegs(t.regs, id)
      ensures t.memories[t.memoriesLut[id]] == id
    {
      assert id != stmtid;
      if stmtid in b.memoriesLut {
        assert b.memoriesLut[id] != b.memoriesLut[stmtid];
      }
    }
  }

  /** A lookup that misses in a file with a free register keeps the invariant. */
  lemma MissWithFreeRegisterValid(s: State, stmtid: nat)
    requires Valid(s) && !InRegs(s.regs, stmtid) && InRegs(s.regs, Free)
    ensures Valid(Lookup(s, stmtid).0)
  {
    var (a, r) := AllocRegister(s);
    assert a == s;
    var b := a.(regs := a.regs[r := a.regs[r].(currStmtid := stmtid)]);
    forall x | x != Free
      ensures InRegs(b.regs, x) <==> x == stmtid || InRegs(s.regs, x)
    {
      InRegsAfterBind(s.regs, r, b.regs[r], x);
    }
    assert NoDuplicateIds(b.regs);
    assert AwaitingReload(b, stmtid, r);
    ReloadRestoresValid(b, stmtid, r);
  }

  /**
   * A lookup that misses in a full file keeps the invariant: the evicted id
   * leaves the register file and is found in the slot its new spill entry names.
   */
  lemma MissWithFullFileValid(s: State, stmtid: nat)
    requires Valid(s) && !InRegs(s.regs, stmtid) && !InRegs(s.regs, Free)
    ensures Valid(Lookup(s, stmtid).0)
    ensures var (t, r) := Lookup(s, stmtid);
      var x := s.regs[r].currStmtid;
      && x >= 0 && x != stmtid
      && !InRegs(t.regs, x)
      && x as nat in t.memoriesLut
      && t.memories[t.memoriesLut[x as nat]] == x
  {
    var (a, r) := AllocRegister(s);
    AllocRegisterEvicts(s);
    var x := s.regs[r].currStmtid;
    var (u, m) := TempSave(s, x as nat);
    assert x != stmtid;
    var b := a.(regs := a.regs[r := a.regs[r].(currStmtid := stmtid)]);
    forall y | y != Free
      ensures InRegs(b.regs, y) <==> y == stmtid || (InRegs(s.regs, y) && y != x)
    {
      InRegsAfterBind(s.regs, r, b.regs[r], y);
    }
    assert NoDuplicateIds(b.regs);
    assert m < |s.memories| ==> s.memories[m] == Free;
    forall k | 0 <= k < |b.memories| && b.memories[k] != Free
      ensures b.memories[k] as nat in b.memoriesLut
      ensures b.memoriesLut[b.memories[k] as nat] == k
      ensures b.memories[k] == stmtid || !InRegs(b.regs, b.memories[k])
    {
      if k != m {
        assert b.memories[k] == s.memories[k];
        assert InRegs(s.regs, x) by { assert s.regs[r].currStmtid == x; }
      }
    }
    forall id | id in b.memoriesLut && !InRegs(b.regs, id)
      ensures b.memories[b.memoriesLut[id]] == id
    {
      if id != x {
        assert !InRegs(s.regs, id);
        assert s.memoriesLut[id] != m;
      }
    }
    if stmtid in b.memoriesLut {
      assert s.memoriesLut[stmtid] != m;
    }
    assert AwaitingReload(b, stmtid, r);
    ReloadRestoresValid(b, stmtid, r);
    LookupMiss(s, stmtid);
    var t := Lookup(s, stmtid).0;
    assert t.regs == s.regs[r := RegInfo(s.regs[r].lastUsed, stmtid)];
    assert !InRegs(t.regs, x) by {
      forall i | 0 <= i < NumRegs ensures t.regs[i].currStmtid != x {
        if i != r { assert s.regs[i].currStmtid != x; }
      }
    }
    assert x as nat in t.memoriesLut;
  }

  /** Every lookup keeps the invariant. */
  lemma LookupValid(s: State, stmtid: nat)
    requires Valid(s)
    ensures Valid(Lookup(s, stmtid).0)
  {
    if InRegs(s.regs, stmtid) {
      var t := Lookup(s, stmtid).0;
      LookupHit(s, stmtid);
      forall x ensures InRegs(s.regs, x) <==> InRegs(t.regs, x) {
        InRegsSameOccupants(s.regs, t.regs, x);
      }
    } else if InRegs(s.regs, Free) {
      MissWithFreeRegisterValid(s, stmtid);
    } else {
      MissWithFullFileValid(s, stmtid);
    }
  }

  /** Every visit keeps the invariant. */
  lemma VisitValid(s: State, stmt: Stmt)
    requires Valid(s)
    ensures Valid(Visit(s, stmt))
  {
    match stmt
    case SymbolStmt(id, name) =>
      assert Visit(s, stmt).regs == s.regs;
    case LiteralStmt(id, name) =>
      assert Visit(s, stmt).regs == s.regs;
    case BinaryOpStmt(id, op, lhs, rhs) =>
      var (s1, d) := Lookup(s, id);
      LookupValid(s, id);
      var (s2, l) := Lookup(s1, lhs);
      LookupValid(s1, lhs);
      LookupValid(s2, rhs);
    case AssignStmt(_, dst, src) =>
      var (s1, d) := Lookup(s, dst);
      LookupValid(s, dst);
      LookupValid(s1, src);
    case _ =>
  }

  /** Lowering a whole statement list keeps the invariant. */
  lemma {:induction false} VisitAllValid(s: State, stmts: seq<Stmt>)
    requires Valid(s)
    ensures Valid(VisitAll(s, stmts))
    decreases |stmts|
  {
    if |stmts| > 0 {
      VisitValid(s, stmts[0]);
      VisitAllValid(Visit(s, stmts[0]), stmts[1..]);
    }
  }

  /**
   * At the end of the pass no id is in two registers, and every spilled id
   * sits in exactly the slot its spill-table entry names.
   */
  lemma LowerKeepsOccupancyInvariant(input: seq<Stmt>)
    ensures Valid(VisitAll(Init(), input))
  {
    VisitAllValid(Init(), input);
  }

  /** No register was last used later than now: the time stamps the eviction scan compares are all in the past. */
  predicate StampsInPast(s: State) {
    forall i :: 0 <= i < |s.regs| ==> s.regs[i].lastUsed <= Now(s)
  }

  /** A lookup never moves the clock back, and stamps a hit register with the current time only. */
  lemma LookupKeepsStamps(s: State, stmtid: nat)
    requires WellFormed(s) && StampsInPast(s)
    ensures var (t, r) := Lookup(s, stmtid);
      && Now(t) >= Now(s)
      && StampsInPast(t)
      && (InRegs(s.regs, stmtid) ==> Now(t) == Now(s) && t.regs[r].lastUsed == Now(s))
  {
    var (t, r) := Lookup(s, stmtid);
    if !InRegs(s.regs, stmtid) {
      LookupMiss(s, stmtid);
      assert t.regs == s.regs[r := RegInfo(s.regs[r].lastUsed, stmtid)];
    }
  }

  /**
   * The clock counts emitted statements: recording a loader leaves it alone,
   * every other statement advances it, and no register stamp runs ahead of it.
   */
  lemma NowAdvances(s: State, stmt: Stmt)
    requires WellFormed(s) && StampsInPast(s)
    ensures var t := Visit(s, stmt);
      && StampsInPast(t)
      && (stmt.SymbolStmt? || stmt.LiteralStmt? ==> Now(t) == Now(s))
      && (!(stmt.SymbolStmt? || stmt.LiteralStmt?) ==> Now(t) > Now(s))
  {
    match stmt
    case SymbolStmt(_, _) =>
    case LiteralStmt(_, _) =>
    case BinaryOpStmt(id, op, lhs, rhs) =>
      var (s1, d) := Lookup(s, id);
      LookupKeepsStamps(s, id);
      var (s2, l) := Lookup(s1, lhs);
      LookupKeepsStamps(s1, lhs);
      var (s3, r) := Lookup(s2, rhs);
      LookupKeepsStamps(s2, rhs);
      assert Visit(s, stmt) == Emit(s3, AsmBinaryOpStmt(op, d, l, r));
    case AssignStmt(_, dst, src) =>
      var (s1, d) := Lookup(s, dst);
      LookupKeepsStamps(s, dst);
      var (s2, r) := Lookup(s1, src);
      LookupKeepsStamps(s1, src);
      assert Visit(s, stmt) == Emit(s2, AsmAssignStmt(d, r));
    case _ =>
  }

  /** Over a whole pass the clock ends at the length of the lowered IR and the stamps stay in the past. */
  lemma {:induction false} VisitAllStampsInPast(s: State, stmts: seq<Stmt>)
    requires WellFormed(s) && StampsInPast(s)
    ensures StampsInPast(VisitAll(s, stmts))
    decreases |stmts|
  {
    if |stmts| > 0 {
      NowAdvances(s, stmts[0]);
      VisitAllStampsInPast(Visit(s, stmts[0]), stmts[1..]);
    }
  }

  /** After lowering a whole input, no register stamp exceeds the length of the lowered IR. */
  lemma LowerStampsInPast(input: seq<Stmt>)
    ensures var t := VisitAll(Init(), input);
      forall i :: 0 <= i < |t.regs| ==> t.regs[i].lastUsed <= |ApplyLowerAccess(input).ir|
  {
    VisitAllStampsInPast(Init(), input);
  }

  /** Visiting a symbol or a literal only records (or replaces) the deferred load for its id. */
  lemma VisitRecordsLoader(s: State, stmt: Stmt)
    requires WellFormed(s)
    requires stmt.SymbolStmt? || stmt.LiteralStmt?
    ensures var t := Visit(s, stmt);
      && t.ir == s.ir && t.regs == s.regs && t.memories == s.memories
      && t.memoriesLut == s.memoriesLut && t.diags == s.diags
      && t.loaders.Keys == s.loaders.Keys + {stmt.id}
      && t.loaders[stmt.id] == Pending(if stmt.SymbolStmt? then SymbolLoader else LiteralLoader, stmt.name)
      && (forall id :: id in s.loaders && id != stmt.id ==> t.loaders[id] == s.loaders[id])
  {
  }

  /** A statement kind the pass does not rewrite is copied to the output unchanged, id included. */
  lemma VisitClonesOtherKinds(s: State, stmt: Stmt)
    requires WellFormed(s)
    requires !IsSymbolic(stmt)
    ensures Visit(s, stmt) == s.(ir := s.ir + [stmt])
  {
  }

  /** The lookups of a binary operation, destination first, spelled out. */
  lemma VisitBinaryOpUnfold(s: State, stmt: Stmt)
    requires WellFormed(s) && stmt.BinaryOpStmt?
    ensures var (s1, d) := Lookup(s, stmt.id);
      var (s2, l) := Lookup(s1, stmt.lhs);
      var (s3, r) := Lookup(s2, stmt.rhs);
      Visit(s, stmt) == s3.(ir := s3.ir + [AsmBinaryOpStmt(stmt.op, d, l, r)])
  {
  }

  /**
   * A binary operation appends allocator instructions and then exactly one
   * binary instruction carrying the same operator over three registers, the
   * last of which holds the right operand.
   */
  lemma VisitBinaryOpOutput(s: State, stmt: Stmt)
    requires WellFormed(s)
    requires stmt.BinaryOpStmt?
    ensures var t := Visit(s, stmt);
      && |t.ir| > |s.ir| && t.ir[..|s.ir|] == s.ir
      && (forall k :: |s.ir| <= k < |t.ir| - 1 ==> IsTransfer(t.ir[k]))
      && var last := t.ir[|t.ir| - 1];
         && last.AsmBinaryOpStmt? && last.op == stmt.op
         && last.dst < NumRegs && last.lhs < NumRegs && last.rhs < NumRegs
         && t.regs[last.rhs].currStmtid == stmt.rhs
  {
    var (s1, d) := Lookup(s, stmt.id);
    var (s2, l) := Lookup(s1, stmt.lhs);
    var (s3, r) := Lookup(s2, stmt.rhs);
    assert Visit(s, stmt) == Emit(s3, AsmBinaryOpStmt(stmt.op, d, l, r));
  }

  /**
   * An assignment appends allocator instructions and then exactly one move
   * between two registers, the second of which holds the source.
   */
  lemma VisitAssignOutput(s: State, stmt: Stmt)
    requires WellFormed(s)
    requires stmt.AssignStmt?
    ensures var t := Visit(s, stmt);
      && |t.ir| > |s.ir| && t.ir[..|s.ir|] == s.ir
      && (forall k :: |s.ir| <= k < |t.ir| - 1 ==> IsTransfer(t.ir[k]))
      && var last := t.ir[|t.ir| - 1];
         && last.AsmAssignStmt? && last.dst < NumRegs && last.src < NumRegs
         && t.regs[last.src].currStmtid == stmt.src
  {
    var (s1, d) := Lookup(s, stmt.dst);
    var (s2, r) := Lookup(s1, stmt.src);
    assert Visit(s, stmt) == Emit(s2, AsmAssignStmt(d, r));
  }

  /**
   * With the invariant, a miss on a spilled id reloads it from the very slot
   * that holds it.
   */
  lemma LookupReloadsOwnSlot(s: State, stmtid: nat)
    requires Valid(s)
    requires !InRegs(s.regs, stmtid) && stmtid in s.memoriesLut
    ensures var (t, r) := Lookup(s, stmtid);
      var m := s.memoriesLut[stmtid];
      && s.memories[m] == stmtid
      && AsmMemoryLoadStmt(m, r) in t.ir[|s.ir|..]
      && t.memories[m] == Free
  {
    LookupMiss(s, stmtid);
    var (t, r) := Lookup(s, stmtid);
    var (a, r0) := AllocRegister(s);
    var m := s.memoriesLut[stmtid];
    var k := |a.ir|;
    assert |s.ir| <= k < |t.ir| && t.ir[k] == AsmMemoryLoadStmt(m, r);
    assert t.ir[|s.ir|..][k - |s.ir|] == AsmMemoryLoadStmt(m, r);
  }

  /**
   * A miss does not refresh the bound register's time, so in a full register
   * file a second miss right after the first evicts the register the first
   * one just bound.
   */
  lemma ConsecutiveMissesShareRegister(s: State, a: nat, b: nat)
    requires WellFormed(s)
    requires !InRegs(s.regs, Free) && !InRegs(s.regs, a) && !InRegs(s.regs, b) && a != b
    ensures var (s1, r1) := Lookup(s, a);
      Lookup(s1, b).1 == r1
  {
    var (s1, r1) := Lookup(s, a);
    MissKeepsFileFull(s, a, b);
    LookupMiss(s1, b);
    AllocRegisterEvicts(s1);
    var r2 := Lookup(s1, b).1;
    assert s1.regs[r2].lastUsed <= s1.regs[r1].lastUsed;
    assert s1.regs[r1].lastUsed <= s1.regs[r2].lastUsed;
  }

  /** After a miss in a full register file, the file is still full and other absent ids are still absent. */
  lemma MissKeepsFileFull(s: State, a: nat, b: nat)
    requires WellFormed(s)
    requires !InRegs(s.regs, Free) && !InRegs(s.regs, a) && !InRegs(s.regs, b) && a != b
    ensures var (s1, r1) := Lookup(s, a);
      && s1.regs == s.regs[r1 := RegInfo(s.regs[r1].lastUsed, a)]
      && !InRegs(s1.regs, Free) && !InRegs(s1.regs, b)
  {
    var (s1, r1) := Lookup(s, a);
    LookupMiss(s, a);
    AllocRegisterEvicts(s);
    assert !InRegs(s1.regs, Free) by {
      forall i | 0 <= i < NumRegs ensures s1.regs[i].currStmtid != Free {
        assert s.regs[i].currStmtid != Free;
      }
    }
    assert !InRegs(s1.regs, b) by {
      forall i | 0 <= i < NumRegs ensures s1.regs[i].currStmtid != b {
        assert s.regs[i].currStmtid != b;
      }
    }
  }

  /**
   * Consequence for a binary operation whose three ids are distinct and all
   * absent from a full register file: the three lookups return one and the
   * same register, so the emitted instruction names it as destination and
   * both operands, and the register ends up holding only the right operand.
   */
  lemma BinaryOpCollapsesToOneRegister(s: State, stmt: Stmt)
    requires WellFormed(s) && stmt.BinaryOpStmt?
    requires !InRegs(s.regs, Free)
    requires !InRegs(s.regs, stmt.id) && !InRegs(s.regs, stmt.lhs) && !InRegs(s.regs, stmt.rhs)
    requires stmt.id != stmt.lhs && stmt.id != stmt.rhs && stmt.lhs != stmt.rhs
    ensures var t := Visit(s, stmt);
      var last := t.ir[|t.ir| - 1];
      && last.dst == last.lhs == last.rhs
      && t.regs[last.dst].currStmtid == stmt.rhs
  {
    var (s1, d) := Lookup(s, stmt.id);
    var (s2, l) := Lookup(s1, stmt.lhs);
    var (s3, r) := Lookup(s2, stmt.rhs);
    ConsecutiveMissesShareRegister(s, stmt.id, stmt.lhs);
    MissKeepsFileFull(s, stmt.id, stmt.rhs);
    assert !InRegs(s1.regs, stmt.lhs) by {
      MissKeepsFileFull(s, stmt.id, stmt.lhs);
    }
    ConsecutiveMissesShareRegister(s1, stmt.lhs, stmt.rhs);
    VisitBinaryOpUnfold(s, stmt);
  }

  /**
   * The destination of a binary operation is looked up like an operand: when
   * it is in no register and has no loader, which is the case for a fresh
   * result id, the lookup records a missing-load diagnostic for it, naming the
   * register the emitted instruction uses as destination.
   */
  lemma BinaryOpReportsOwnId(s: State, stmt: Stmt)
    requires WellFormed(s) && stmt.BinaryOpStmt?
    requires !InRegs(s.regs, stmt.id) && stmt.id !in s.loaders
    ensures var (t, d) := Lookup(s, stmt.id);
      var u := Visit(s, stmt);
      && t.diags == s.diags + [MissingLoad(stmt.id, d)]
      && u.ir[|u.ir| - 1].dst == d
  {
    LookupMiss(s, stmt.id);
    VisitBinaryOpUnfold(s, stmt);
  }

  /**
   * The same collapse for an assignment: in a full register file, when its two
   * distinct ids both miss, the move names one register twice and that
   * register holds only the source.
   */
  lemma AssignCollapsesToOneRegister(s: State, stmt: Stmt)
    requires WellFormed(s) && stmt.AssignStmt?
    requires !InRegs(s.regs, Free) && !InRegs(s.regs, stmt.dst) && !InRegs(s.regs, stmt.src)
    requires stmt.dst != stmt.src
    ensures var t := Visit(s, stmt);
      var last := t.ir[|t.ir| - 1];
      && last.AsmAssignStmt? && last.dst == last.src
      && t.regs[last.dst].currStmtid == stmt.src
  {
    var (s1, d) := Lookup(s, stmt.dst);
    var (s2, r) := Lookup(s1, stmt.src);
    ConsecutiveMissesShareRegister(s, stmt.dst, stmt.src);
    assert Visit(s, stmt) == Emit(s2, AsmAssignStmt(d, r));
  }

  /** The operators of the binary operations among `stmts`. */
  function BinaryOps(stmts: seq<Stmt>): set<string> {
    set i | 0 <= i < |stmts| && stmts[i].BinaryOpStmt? :: stmts[i].op
  }

  /** What lowering may append: allocator instructions, moves, binary instructions over input operators, or pass-through copies. */
  predicate LoweredFrom(x: Stmt, stmts: seq<Stmt>) {
    || IsTransfer(x)
    || x.AsmAssignStmt?
    || (x.AsmBinaryOpStmt? && x.op in BinaryOps(stmts))
    || (x in stmts && !IsSymbolic(x))
  }

  /** Each visit appends only what lowering that one statement may produce. */
  lemma VisitOutputs(s: State, stmt: Stmt)
    requires WellFormed(s)
    ensures var t := Visit(s, stmt);
      forall k :: |s.ir| <= k < |t.ir| ==> LoweredFrom(t.ir[k], [stmt])
  {
    assert stmt.BinaryOpStmt? ==> stmt.op in BinaryOps([stmt]) by {
      if stmt.BinaryOpStmt? { assert [stmt][0] == stmt; }
    }
    match stmt
    case SymbolStmt(_, _) =>
    case LiteralStmt(_, _) =>
    case BinaryOpStmt(_, _, _, _) => VisitBinaryOpOutput(s, stmt);
    case AssignStmt(_, _, _) => VisitAssignOutput(s, stmt);
    case _ =>
  }

  lemma LoweredFromWider(x: Stmt, stmt: Stmt, stmts: seq<Stmt>)
    requires |stmts| > 0 && stmts[0] == stmt
    requires LoweredFrom(x, [stmt]) || LoweredFrom(x, stmts[1..])
    ensures LoweredFrom(x, stmts)
  {
    if x.AsmBinaryOpStmt? && x.op in BinaryOps([stmt]) {
      assert stmts[0].op == x.op;
    }
    if x.AsmBinaryOpStmt? && x.op in BinaryOps(stmts[1..]) {
      var i :| 0 <= i < |stmts[1..]| && stmts[1..][i].BinaryOpStmt? && stmts[1..][i].op == x.op;
      assert stmts[i + 1].op == x.op;
    }
    if x in stmts[1..] {
      var i :| 0 <= i < |stmts[1..]| && stmts[1..][i] == x;
      assert stmts[i + 1] == x;
    }
  }

  lemma {:induction false} VisitAllOutputs(s: State, stmts: seq<Stmt>)
    requires WellFormed(s)
    ensures var t := VisitAll(s, stmts);
      forall k :: |s.ir| <= k < |t.ir| ==> LoweredFrom(t.ir[k], stmts)
    decreases |stmts|
  {
    if |stmts| > 0 {
      var s1 := Visit(s, stmts[0]);
      VisitOutputs(s, stmts[0]);
      VisitAllOutputs(s1, stmts[1..]);
      var t := VisitAll(s, stmts);
      forall k | |s.ir| <= k < |t.ir|
        ensures LoweredFrom(t.ir[k], stmts)
      {
        assert t == VisitAll(s1, stmts[1..]);
        if k < |s1.ir| {
          assert t.ir[k] == t.ir[..|s1.ir|][k] == s1.ir[k];
        }
        LoweredFromWider(t.ir[k], stmts[0], stmts);
      }
    }
  }

  /**
   * The lowered IR holds only assembly-level statements and pass-through
   * copies of input statements of other kinds; for a purely symbolic input it
   * holds only assembly-level statements.
   */
  lemma LowerOutputKinds(input: seq<Stmt>)
    ensures var out := ApplyLowerAccess(input).ir;
      forall k :: 0 <= k < |out| ==> LoweredFrom(out[k], input)
    ensures (forall i :: 0 <= i < |input| ==> IsSymbolic(input[i])) ==>
      var out := ApplyLowerAccess(input).ir;
      forall k :: 0 <= k < |out| ==> IsAsm(out[k])
  {
    VisitAllOutputs(Init(), input);
    var out := ApplyLowerAccess(input).ir;
    assert out == VisitAll(Init(), input).ir;
    assert |Init().ir| == 0;
    forall k | 0 <= k < |out| ensures LoweredFrom(out[k], input) {
      assert 0 <= k < |VisitAll(Init(), input).ir|;
    }
  }
}
