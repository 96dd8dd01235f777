/**
 * The two passes composed: lowering a symbolic IR and emitting the result,
 * with the scenarios the backend is expected to handle.
 */
module Pipeline {
  import opened Base
  import opened Stmts
  import opened LowerAccess
  import opened LowerProps
  import opened EmitAssembly
  import opened Text

  /** A symbolic IR the front end may hand over: only symbolic statements, binary operators from the table. */
  predicate WellFormedInput(input: seq<Stmt>) {
    forall i :: 0 <= i < |input| ==>
      IsSymbolic(input[i]) && (input[i].BinaryOpStmt? ==> IsBinaryOp(input[i].op))
  }

  /**
   * Lowering a well-formed symbolic IR and emitting the result succeeds, and
   * no emitted line is an `error` line.
   */
  lemma CompileHasNoErrorLines(input: seq<Stmt>)
    requires WellFormedInput(input)
    ensures var out := ApplyLowerAccess(input).ir;
      && ApplyEmitAssembly(out).Ok?
      && EmitLines(out).Ok?
      && |EmitLines(out).value| == |out|
      && forall i :: 0 <= i < |out| ==> !IsErrorLine(EmitLines(out).value[i])
  {
    var out := ApplyLowerAccess(input).ir;
    LoweredOutputEmittable(input);
    NoErrorLines(out);
    assert ApplyEmitAssembly(out) == Ok(JoinLines(EmitLines(out).value));
  }

  /**
   * Lowering a well-formed symbolic IR whose symbol and literal names print on
   * one line, and emitting the result, gives a text that cuts at its newlines
   * into one line per lowered statement, none of them an `error` line.
   */
  lemma CompiledTextHasNoErrorLines(input: seq<Stmt>)
    requires WellFormedInput(input) && OneLineInput(input)
    ensures var out := ApplyLowerAccess(input).ir;
      && ApplyEmitAssembly(out).Ok?
      && var lines := SplitLines(ApplyEmitAssembly(out).value);
         && |lines| == |out|
         && forall i :: 0 <= i < |lines| ==> !IsErrorLine(lines[i])
  {
    var out := ApplyLowerAccess(input).ir;
    LoweredOutputEmittable(input);
    VisitAllOneLine(Init(), input);
    assert out == VisitAll(Init(), input).ir;
    NoErrorLinesInText(out);
  }

  /** A name whose printed form (cut at its first NUL) has no newline. */
  predicate PrintsOnOneLine(name: string) {
    '\n' !in CString(name)
  }

  /** Every symbol and literal of the input has a name that prints on one line. */
  predicate OneLineInput(input: seq<Stmt>) {
    forall i :: 0 <= i < |input| && (input[i].SymbolStmt? || input[i].LiteralStmt?) ==>
      PrintsOnOneLine(input[i].name)
  }

  /** Every load emitted so far, and every deferred loader, has a name that prints on one line. */
  predicate OneLineState(s: State) {
    && (forall k :: 0 <= k < |s.ir| ==> OneLineNames(s.ir[k]))
    && (forall id :: id in s.loaders ==> PrintsOnOneLine(s.loaders[id].name))
  }

  /** Appending a statement that is not a load keeps every name on one line. */
  lemma EmitOneLine(s: State, x: Stmt)
    requires OneLineState(s) && !x.AsmLoadSymbolStmt? && !x.AsmLoadConstStmt?
    ensures OneLineState(Emit(s, x))
  {
    var t := Emit(s, x);
    forall k | 0 <= k < |t.ir| ensures OneLineNames(t.ir[k]) {
      if k < |s.ir| { assert t.ir[k] == s.ir[k]; }
    }
  }

  /** A lookup emits loads only from the deferred loaders, so it keeps every name on one line. */
  lemma LookupOneLine(s: State, stmtid: nat)
    requires WellFormed(s) && OneLineState(s)
    ensures OneLineState(Lookup(s, stmtid).0)
  {
    if FindReg(s.regs, stmtid, 0) == |s.regs| {
      MaterializeOneLine(s, stmtid);
    }
  }

  lemma MaterializeOneLine(s: State, stmtid: nat)
    requires WellFormed(s) && OneLineState(s)
    ensures OneLineState(Materialize(s, stmtid).0)
  {
    var (a, r) := AllocRegister(s);
    if a != s {
      assert a == Emit(a.(ir := s.ir), a.ir[|s.ir|]) by {
        assert a.ir == s.ir + [a.ir[|s.ir|]];
      }
      EmitOneLine(a.(ir := s.ir), a.ir[|s.ir|]);
    }
    var bound := a.(regs := a.regs[r := a.regs[r].(currStmtid := stmtid)]);
    var b := Reload(bound, stmtid, r);
    if stmtid in bound.memoriesLut {
      EmitOneLine(bound.(memories := b.memories), AsmMemoryLoadStmt(bound.memoriesLut[stmtid], r));
    }
    RunLoaderOneLine(b, stmtid, r);
  }

  lemma RunLoaderOneLine(s: State, stmtid: nat, r: nat)
    requires WellFormed(s) && OneLineState(s)
    ensures OneLineState(RunLoader(s, stmtid, r))
  {
    if stmtid in s.loaders {
      var t := RunLoader(s, stmtid, r);
      assert PrintsOnOneLine(s.loaders[stmtid].name);
      forall k | 0 <= k < |t.ir| ensures OneLineNames(t.ir[k]) {
        if k < |s.ir| { assert t.ir[k] == s.ir[k]; }
      }
    }
  }

  /** Lowering a binary operation keeps every name on one line. */
  lemma BinaryOpOneLine(s: State, op: string, id: nat, lhs: nat, rhs: nat)
    requires WellFormed(s) && OneLineState(s)
    ensures OneLineState(VisitBinaryOp(s, op, id, lhs, rhs))
  {
    var (s1, d) := Lookup(s, id);
    LookupOneLine(s, id);
    var (s2, l) := Lookup(s1, lhs);
    LookupOneLine(s1, lhs);
    var (s3, r) := Lookup(s2, rhs);
    LookupOneLine(s2, rhs);
    EmitOneLine(s3, AsmBinaryOpStmt(op, d, l, r));
  }

  /** Lowering an assignment keeps every name on one line. */
  lemma AssignOneLine(s: State, dst: nat, src: nat)
    requires WellFormed(s) && OneLineState(s)
    ensures OneLineState(VisitAssign(s, dst, src))
  {
    var (s1, d) := Lookup(s, dst);
    LookupOneLine(s, dst);
    var (s2, r) := Lookup(s1, src);
    LookupOneLine(s1, src);
    EmitOneLine(s2, AsmAssignStmt(d, r));
  }

  /** Lowering one statement keeps every name on one line. */
  lemma VisitOneLine(s: State, stmt: Stmt)
    requires WellFormed(s) && OneLineState(s) && IsSymbolic(stmt)
    requires stmt.SymbolStmt? || stmt.LiteralStmt? ==> PrintsOnOneLine(stmt.name)
    ensures OneLineState(Visit(s, stmt))
  {
    match stmt
    case SymbolStmt(_, _) =>
    case LiteralStmt(_, _) =>
    case BinaryOpStmt(id, op, lhs, rhs) => BinaryOpOneLine(s, op, id, lhs, rhs);
    case AssignStmt(_, dst, src) => AssignOneLine(s, dst, src);
  }

  lemma {:induction false} VisitAllOneLine(s: State, stmts: seq<Stmt>)
    requires WellFormed(s) && OneLineState(s)
    requires WellFormedInput(stmts) && OneLineInput(stmts)
    ensures OneLineState(VisitAll(s, stmts))
    decreases |stmts|
  {
    if |stmts| > 0 {
      VisitOneLine(s, stmts[0]);
      var rest := stmts[1..];
      assert WellFormedInput(rest) && OneLineInput(rest) by {
        forall i | 0 <= i < |rest| ensures rest[i] == stmts[i + 1] { }
      }
      VisitAllOneLine(Visit(s, stmts[0]), rest);
    }
  }

  /** Every statement lowering produces from a well-formed input has a line format and an opcode. */
  lemma LoweredOutputEmittable(input: seq<Stmt>)
    requires WellFormedInput(input)
    ensures var out := ApplyLowerAccess(input).ir;
      forall k :: 0 <= k < |out| ==> IsAsm(out[k]) && HasOpcode(out[k])
  {
    var out := ApplyLowerAccess(input).ir;
    LowerOutputKinds(input);
    forall k | 0 <= k < |out| ensures IsAsm(out[k]) && HasOpcode(out[k]) {
      LoweredStmtEmittable(out[k], input);
    }
  }

  lemma LoweredStmtEmittable(x: Stmt, input: seq<Stmt>)
    requires WellFormedInput(input) && LoweredFrom(x, input)
    ensures IsAsm(x) && HasOpcode(x)
  {
    if x.AsmBinaryOpStmt? {
      var i :| 0 <= i < |input| && input[i].BinaryOpStmt? && input[i].op == x.op;
      assert IsBinaryOp(input[i].op);
    }
    if x in input {
      var i :| 0 <= i < |input| && input[i] == x;
      assert IsSymbolic(input[i]);
    }
  }

  /** Two literals added: loaded lazily into fresh registers, then one `add`. */
  lemma ScenarioAddLiterals()
    ensures var lowered := ApplyLowerAccess([LiteralStmt(0, "1.0"), LiteralStmt(1, "2.0"), BinaryOpStmt(2, "+", 0, 1)]);
      && lowered.ir == [AsmLoadConstStmt(1, "1.0"), AsmLoadConstStmt(2, "2.0"), AsmBinaryOpStmt("+", 0, 1, 2)]
      && lowered.diags == [MissingLoad(2, 0)]
      && EmitLines(lowered.ir) == Ok(["ldi 1 1.0", "ldi 2 2.0", "add 0 1 2"])
  {
    var lit0, lit1, add := LiteralStmt(0, "1.0"), LiteralStmt(1, "2.0"), BinaryOpStmt(2, "+", 0, 1);
    var s2 := ScenarioLoaders();
    var s3 := ScenarioAdd(s2);
    VisitAllThree(Init(), lit0, lit1, add);
    ScenarioAddLiteralsText();
  }

  lemma VisitAllThree(s: State, a: Stmt, b: Stmt, c: Stmt)
    requires WellFormed(s)
    ensures VisitAll(s, [a, b, c]) == Visit(Visit(Visit(s, a), b), c)
  {
    var s1 := Visit(s, a);
    var s2 := Visit(s1, b);
    VisitAllStep(s, [a, b, c]);
    assert [a, b, c][1..] == [b, c];
    VisitAllStep(s1, [b, c]);
    assert [b, c][1..] == [c];
    VisitAllStep(s2, [c]);
    assert [c][1..] == [];
  }

  lemma VisitAllStep(s: State, stmts: seq<Stmt>)
    requires WellFormed(s) && |stmts| > 0
    ensures VisitAll(s, stmts) == VisitAll(Visit(s, stmts[0]), stmts[1..])
  {
  }

  /** Registers from `k` on are free and never used; the ones below hold the listed ids. */
  predicate ScenarioRegs(s: State, held: seq<nat>) {
    && WellFormed(s)
    && |held| < NumRegs
    && (forall i :: 0 <= i < |held| ==> s.regs[i] == RegInfo(-1, held[i]))
    && (forall i :: |held| <= i < NumRegs ==> s.regs[i] == RegInfo(-1, Free))
    && s.memoriesLut == map[]
    && s.loaders == map[0 := Pending(LiteralLoader, "1.0"), 1 := Pending(LiteralLoader, "2.0")]
  }

  /** One scenario lookup of a fresh id: it lands in the first free register. */
  lemma ScenarioLookup(s: State, held: seq<nat>, id: nat)
    requires ScenarioRegs(s, held) && id !in held && |held| + 1 < NumRegs
    ensures var t := Lookup(s, id).0;
      var r := Lookup(s, id).1;
      && r == |held|
      && ScenarioRegs(t, held + [id])
      && t.ir == s.ir + (if id in s.loaders then [Load(s.loaders[id], r)] else [])
      && t.diags == s.diags + (if id in s.loaders then [] else [MissingLoad(id, r)])
  {
    assert !InRegs(s.regs, id) by {
      forall i | 0 <= i < NumRegs ensures s.regs[i].currStmtid != id {
        if i < |held| { assert s.regs[i].currStmtid == held[i]; }
      }
    }
    FirstLookupTakesLowestFree(s, id, |held|);
  }

  /** The binary operation looks up its destination, then its operands, in the three lowest registers. */
  lemma ScenarioAdd(s2: State) returns (s3: State)
    requires ScenarioRegs(s2, []) && s2.ir == [] && s2.diags == []
    ensures s3 == Visit(s2, BinaryOpStmt(2, "+", 0, 1))
    ensures s3.ir == [AsmLoadConstStmt(1, "1.0"), AsmLoadConstStmt(2, "2.0"), AsmBinaryOpStmt("+", 0, 1, 2)]
    ensures s3.diags == [MissingLoad(2, 0)]
  {
    var (t1, d) := Lookup(s2, 2);
    AddLooksUpDestination(s2);
    var (t2, l) := Lookup(t1, 0);
    AddLooksUpLeft(t1);
    var (t3, r) := Lookup(t2, 1);
    AddLooksUpRight(t2);
    VisitBinaryOpUnfold(s2, BinaryOpStmt(2, "+", 0, 1));
    s3 := Visit(s2, BinaryOpStmt(2, "+", 0, 1));
    assert s3 == t3.(ir := t3.ir + [AsmBinaryOpStmt("+", d, l, r)]);
  }

  lemma AddLooksUpDestination(s: State)
    requires ScenarioRegs(s, []) && s.ir == [] && s.diags == []
    ensures var (t, d) := Lookup(s, 2);
      d == 0 && ScenarioRegs(t, [2]) && t.ir == [] && t.diags == [MissingLoad(2, 0)]
  {
    ScenarioLookup(s, [], 2);
    assert 2 !in s.loaders;
    assert [] + [2] == [2];
  }

  lemma AddLooksUpLeft(s: State)
    requires ScenarioRegs(s, [2]) && s.ir == [] && s.diags == [MissingLoad(2, 0)]
    ensures var (t, l) := Lookup(s, 0);
      l == 1 && ScenarioRegs(t, [2, 0]) && t.ir == [AsmLoadConstStmt(1, "1.0")] && t.diags == s.diags
  {
    ScenarioLookup(s, [2], 0);
    assert 0 in s.loaders && s.loaders[0] == Pending(LiteralLoader, "1.0");
    assert [2] + [0] == [2, 0];
  }

  lemma AddLooksUpRight(s: State)
    requires ScenarioRegs(s, [2, 0]) && s.ir == [AsmLoadConstStmt(1, "1.0")] && s.diags == [MissingLoad(2, 0)]
    ensures var (t, r) := Lookup(s, 1);
      r == 2 && t.ir == [AsmLoadConstStmt(1, "1.0"), AsmLoadConstStmt(2, "2.0")] && t.diags == s.diags
  {
    ScenarioLookup(s, [2, 0], 1);
    assert 1 in s.loaders && s.loaders[1] == Pending(LiteralLoader, "2.0");
  }

  /** The pass state after the two literals: only their deferred loads are recorded. */
  lemma ScenarioLoaders() returns (s2: State)
    ensures s2 == Visit(Visit(Init(), LiteralStmt(0, "1.0")), LiteralStmt(1, "2.0"))
    ensures s2 == Init().(loaders := map[0 := Pending(LiteralLoader, "1.0"), 1 := Pending(LiteralLoader, "2.0")])
    ensures ScenarioRegs(s2, []) && s2.ir == [] && s2.diags == []
  {
    s2 := Visit(Visit(Init(), LiteralStmt(0, "1.0")), LiteralStmt(1, "2.0"));
  }

  lemma SmallNumerals()
    ensures NatToString(0) == "0" && NatToString(1) == "1" && NatToString(2) == "2"
  {
    assert DigitChar(0) == '0' && DigitChar(1) == '1' && DigitChar(2) == '2';
  }

  lemma ScenarioAddLiteralsText()
    ensures EmitLines([AsmLoadConstStmt(1, "1.0"), AsmLoadConstStmt(2, "2.0"), AsmBinaryOpStmt("+", 0, 1, 2)])
      == Ok(["ldi 1 1.0", "ldi 2 2.0", "add 0 1 2"])
  {
    SmallNumerals();
    var ir := [AsmLoadConstStmt(1, "1.0"), AsmLoadConstStmt(2, "2.0"), AsmBinaryOpStmt("+", 0, 1, 2)];
    assert EmitStmt(ir[0]) == Ok("ldi " + "1" + " " + "1.0");
    assert "ldi " + "1" + " " + "1.0" == "ldi 1 1.0";
    assert EmitStmt(ir[1]) == Ok("ldi " + "2" + " " + "2.0");
    assert "ldi " + "2" + " " + "2.0" == "ldi 2 2.0";
    assert EmitStmt(ir[2]) == Ok(ThreeFields("add", 0, 1, 2));
    assert ThreeFields("add", 0, 1, 2) == "add" + " " + "0" + " " + "1" + " " + "2";
    assert "add" + " " + "0" + " " + "1" + " " + "2" == "add 0 1 2";
    var lines := ["ldi 1 1.0", "ldi 2 2.0", "add 0 1 2"];
    assert forall i :: 0 <= i < 3 ==> EmitStmt(ir[i]) == Ok(lines[i]);
    var out := EmitLines(ir);
    assert out.Ok?;
    assert out.value == lines;
  }

  /** An unsupported unary operator aborts emission with an error naming it. */
  lemma ScenarioInvalidUnaryOp()
    ensures ApplyEmitAssembly([AsmUnaryOpStmt("*", 0, 1)]) == Err(InvalidUnaryOp("*"))
  {
  }

  /** A symbol that was never lowered is reported on an error line, not as a failure. */
  lemma ScenarioUnloweredSymbol()
    ensures ApplyEmitAssembly([SymbolStmt(0, "pos")]) == Ok("error unexpected `SymbolStmt`\n")
  {
    var x := SymbolStmt(0, "pos");
    EmitUnexpectedAlone(x);
    assert UnexpectedLine(x) == "error unexpected `SymbolStmt`";
    assert "error unexpected `SymbolStmt`" + "\n" == "error unexpected `SymbolStmt`\n";
  }
}
