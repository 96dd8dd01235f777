/**
 * The assembly emitter: one text line per statement of the lowered IR, in IR
 * order, from a fixed opcode table.  An operator outside the table aborts the
 * whole emission; a statement kind the emitter has no format for becomes an
 * `error unexpected` line and emission goes on.
 *
 * Registers and memory slots print as decimal numbers, names print as the C
 * string `c_str()` yields (up to the first NUL), and fields are separated by
 * single spaces.
 */
module EmitAssembly {
  import opened Base
  import opened Stmts
  import opened Text

  /** Why emission stopped: an operator with no opcode, named in the error. */
  datatype EmitError = InvalidUnaryOp(op: string) | InvalidBinaryOp(op: string)

  predicate IsUnaryOp(op: string) {
    op == "+" || op == "-"
  }

  predicate IsBinaryOp(op: string) {
    op == "+" || op == "-" || op == "*" || op == "/" || op == "%"
  }

  /** Whether the emitter can render `s` without failing. */
  predicate HasOpcode(s: Stmt) {
    && (s.AsmUnaryOpStmt? ==> IsUnaryOp(s.op))
    && (s.AsmBinaryOpStmt? ==> IsBinaryOp(s.op))
  }

  /** `+` is `mov`, `-` is `neg`; any other unary operator is an error naming it. */
  function UnaryOpcode(op: string): (r: Result<string, EmitError>)
    ensures r.Ok? <==> IsUnaryOp(op)
    ensures r.Err? ==> r.error == InvalidUnaryOp(op)
  {
    if op == "+" then Ok("mov")
    else if op == "-" then Ok("neg")
    else Err(InvalidUnaryOp(op))
  }

  /** `+ - * / %` are `add sub mul div mod`; any other binary operator is an error naming it. */
  function BinaryOpcode(op: string): (r: Result<string, EmitError>)
    ensures r.Ok? <==> IsBinaryOp(op)
    ensures r.Err? ==> r.error == InvalidBinaryOp(op)
  {
    if op == "+" then Ok("add")
    else if op == "-" then Ok("sub")
    else if op == "*" then Ok("mul")
    else if op == "/" then Ok("div")
    else if op == "%" then Ok("mod")
    else Err(InvalidBinaryOp(op))
  }

  /** The operator a binary opcode stands for, if it is one. */
  function BinaryOpOf(opcode: string): Option<string> {
    if opcode == "add" then Some("+")
    else if opcode == "sub" then Some("-")
    else if opcode == "mul" then Some("*")
    else if opcode == "div" then Some("/")
    else if opcode == "mod" then Some("%")
    else None
  }

  /** The binary opcode table is one-to-one: each opcode reads back as its operator. */
  lemma BinaryOpcodeInverse(op: string)
    requires IsBinaryOp(op)
    ensures BinaryOpOf(BinaryOpcode(op).value) == Some(op)
  {
  }

  /** The line written for a statement that has no format of its own. */
  function UnexpectedLine(s: Stmt): string {
    "error unexpected `" + KindName(s) + "`"
  }

  /** A line whose first field is `error`. */
  predicate IsErrorLine(line: string) {
    match SplitOnce(line, ' ')
    case Some((head, _)) => head == "error"
    case None => false
  }

  /** The line for one statement (without its newline), or the error that aborts emission. */
  function EmitStmt(s: Stmt): (r: Result<string, EmitError>)
    ensures r.Err? <==> !HasOpcode(s)
    ensures s.AsmUnaryOpStmt? && !IsUnaryOp(s.op) ==> r == Err(InvalidUnaryOp(s.op))
    ensures s.AsmBinaryOpStmt? && !IsBinaryOp(s.op) ==> r == Err(InvalidBinaryOp(s.op))
  {
    match s
    case AsmUnaryOpStmt(op, dst, src) =>
      (match UnaryOpcode(op)
       case Err(e) => Err(e)
       case Ok(opcode) => Ok(TwoFields(opcode, dst, src)))
    case AsmBinaryOpStmt(op, dst, lhs, rhs) =>
      (match BinaryOpcode(op)
       case Err(e) => Err(e)
       case Ok(opcode) => Ok(ThreeFields(opcode, dst, lhs, rhs)))
    case AsmMemoryStoreStmt(mem, val) => Ok(TwoFields("st", val, mem))
    case AsmMemoryLoadStmt(mem, val) => Ok(TwoFields("ld", val, mem))
    case AsmLoadSymbolStmt(dst, name) => Ok("lds " + NatToString(dst) + " " + CString(name))
    case AsmLoadConstStmt(dst, name) => Ok("ldi " + NatToString(dst) + " " + CString(name))
    case AsmAssignStmt(dst, src) => Ok(TwoFields("mov", dst, src))
    case _ => Ok(UnexpectedLine(s))
  }

  function TwoFields(opcode: string, a: nat, b: nat): string {
    opcode + " " + NatToString(a) + " " + NatToString(b)
  }

  function ThreeFields(opcode: string, a: nat, b: nat, c: nat): string {
    opcode + " " + NatToString(a) + " " + NatToString(b) + " " + NatToString(c)
  }

  /**
   * The lines of a whole IR: one per statement, in order; or the error of the
   * first statement whose operator has no opcode.
   */
  function EmitLines(ir: seq<Stmt>): (r: Result<seq<string>, EmitError>)
    ensures r.Ok? ==> |r.value| == |ir| && forall i :: 0 <= i < |ir| ==> EmitStmt(ir[i]) == Ok(r.value[i])
    ensures r.Err? ==> exists i :: 0 <= i < |ir| && EmitStmt(ir[i]) == Err(r.error)
                                   && forall j :: 0 <= j < i ==> EmitStmt(ir[j]).Ok?
    ensures r.Ok? <==> forall i :: 0 <= i < |ir| ==> HasOpcode(ir[i])
    decreases |ir|
  {
    if |ir| == 0 then Ok([])
    else
      match EmitStmt(ir[0])
      case Err(e) => Err(e)
      case Ok(line) =>
        match EmitLines(ir[1..])
        case Err(e) => Err(e)
        case Ok(lines) => Ok([line] + lines)
  }

  /** The emitted text: every line terminated by a newline. */
  function ApplyEmitAssembly(ir: seq<Stmt>): (r: Result<string, EmitError>)
    ensures r.Ok? <==> forall i :: 0 <= i < |ir| ==> HasOpcode(ir[i])
    ensures r.Err? ==> exists i :: 0 <= i < |ir| && EmitStmt(ir[i]) == Err(r.error)
                                   && forall j :: 0 <= j < i ==> EmitStmt(ir[j]).Ok?
    ensures |ir| > 0 && r.Ok? ==> |r.value| > 0 && r.value[|r.value| - 1] == '\n'
  {
    match EmitLines(ir)
    case Err(e) => Err(e)
    case Ok(lines) => Ok(JoinLines(lines))
  }

  /** One statement with an opcode is emitted as its line and a newline. */
  lemma EmitOne(x: Stmt)
    requires HasOpcode(x)
    ensures ApplyEmitAssembly([x]) == Ok(EmitStmt(x).value + "\n")
  {
    var line := EmitStmt(x).value;
    assert EmitLines([x]).Ok?;
    assert EmitLines([x]).value == [line];
    assert [line][..0] == [];
    assert JoinLines([line]) == JoinLines([]) + line + "\n";
    assert JoinLines([]) == "";
    assert "" + line + "\n" == line + "\n";
    assert ApplyEmitAssembly([x]) == Ok(JoinLines([line]));
  }

  /**
   * Emission is a homomorphism over concatenation: the text of `a + b` is the
   * text of `a` followed by the text of `b`, and it fails exactly when one of
   * the two fails.
   */
  lemma EmitAppend(a: seq<Stmt>, b: seq<Stmt>)
    ensures ApplyEmitAssembly(a + b).Ok? <==> ApplyEmitAssembly(a).Ok? && ApplyEmitAssembly(b).Ok?
    ensures ApplyEmitAssembly(a + b).Ok? ==>
      ApplyEmitAssembly(a + b).value == ApplyEmitAssembly(a).value + ApplyEmitAssembly(b).value
  {
    var ab := a + b;
    assert forall i :: 0 <= i < |a| ==> ab[i] == a[i];
    assert forall i :: 0 <= i < |b| ==> ab[|a| + i] == b[i];
    if EmitLines(ab).Ok? {
      assert EmitLines(a).Ok? && EmitLines(b).Ok?;
      var la, lb := EmitLines(a).value, EmitLines(b).value;
      assert EmitLines(ab).value == la + lb;
      JoinLinesAppend(la, lb);
    } else if EmitLines(a).Ok? {
      assert !EmitLines(b).Ok?;
    }
  }

  /** Reads two decimal fields separated by a space. */
  function ParseTwo(text: string): Option<(nat, nat)> {
    match SplitOnce(text, ' ')
    case None => None
    case Some((a, b)) =>
      match (ParseNat(a), ParseNat(b))
      case (Some(x), Some(y)) => Some((x, y))
      case _ => None
  }

  /** Reads three decimal fields separated by spaces. */
  function ParseThree(text: string): Option<(nat, nat, nat)> {
    match SplitOnce(text, ' ')
    case None => None
    case Some((a, rest)) =>
      match (ParseNat(a), ParseTwo(rest))
      case (Some(x), Some((y, z))) => Some((x, y, z))
      case _ => None
  }

  /**
   * Reads one emitted line back into the statement it stands for.  `mov`
   * reads as a register move: unary `+` and a move print the same line.
   */
  function ParseLine(line: string): Option<Stmt> {
    match SplitOnce(line, ' ')
    case None => None
    case Some((opcode, rest)) => ParseFields(opcode, rest)
  }

  /** Reads the fields after an opcode. */
  function ParseFields(opcode: string, rest: string): Option<Stmt> {
      if opcode == "lds" || opcode == "ldi" then
        match SplitOnce(rest, ' ')
        case None => None
        case Some((d, name)) =>
          match ParseNat(d)
          case None => None
          case Some(dst) =>
            Some(if opcode == "lds" then AsmLoadSymbolStmt(dst, name) else AsmLoadConstStmt(dst, name))
      else if opcode == "st" || opcode == "ld" || opcode == "mov" || opcode == "neg" then
        match ParseTwo(rest)
        case None => None
        case Some((a, b)) =>
          Some(if opcode == "st" then AsmMemoryStoreStmt(b, a)
               else if opcode == "ld" then AsmMemoryLoadStmt(b, a)
               else if opcode == "mov" then AsmAssignStmt(a, b)
               else AsmUnaryOpStmt("-", a, b))
      else
        match BinaryOpOf(opcode)
        case None => None
        case Some(op) =>
          match ParseThree(rest)
          case None => None
          case Some((a, b, c)) => Some(AsmBinaryOpStmt(op, a, b, c))
  }

  /**
   * What a reader of the text can recover of a statement: unary `+` is
   * indistinguishable from a move, and a name is cut at its first NUL.
   */
  function Readback(s: Stmt): Stmt {
    match s
    case AsmUnaryOpStmt("+", dst, src) => AsmAssignStmt(dst, src)
    case AsmLoadSymbolStmt(dst, name) => AsmLoadSymbolStmt(dst, CString(name))
    case AsmLoadConstStmt(dst, name) => AsmLoadConstStmt(dst, CString(name))
    case _ => s
  }

  lemma ParseTwoFields(a: nat, b: nat)
    ensures ParseTwo(NatToString(a) + " " + NatToString(b)) == Some((a, b))
  {
    NoSpaceInNumeral(a);
    SplitOnceAt(NatToString(a), ' ', NatToString(b));
    ParseNatToString(a);
    ParseNatToString(b);
  }

  lemma ParseThreeFields(a: nat, b: nat, c: nat)
    ensures ParseThree(NatToString(a) + " " + NatToString(b) + " " + NatToString(c)) == Some((a, b, c))
  {
    var rest := NatToString(b) + " " + NatToString(c);
    assert NatToString(a) + " " + NatToString(b) + " " + NatToString(c) == NatToString(a) + " " + rest;
    NoSpaceInNumeral(a);
    SplitOnceAt(NatToString(a), ' ', rest);
    ParseNatToString(a);
    ParseTwoFields(b, c);
  }

  /** An opcode followed by a space is read back as that opcode and the rest of the line. */
  lemma SplitOpcode(opcode: string, rest: string)
    requires ' ' !in opcode
    ensures SplitOnce(opcode + " " + rest, ' ') == Some((opcode, rest))
    ensures ParseLine(opcode + " " + rest) == ParseFields(opcode, rest)
  {
    SplitOnceAt(opcode, ' ', rest);
  }

  /** A two-register line reads back as the statement its opcode names. */
  lemma ParseTwoFieldLine(opcode: string, a: nat, b: nat)
    requires opcode in ["st", "ld", "mov", "neg"]
    ensures ParseLine(TwoFields(opcode, a, b)) == Some(
      if opcode == "st" then AsmMemoryStoreStmt(b, a)
      else if opcode == "ld" then AsmMemoryLoadStmt(b, a)
      else if opcode == "mov" then AsmAssignStmt(a, b)
      else AsmUnaryOpStmt("-", a, b))
  {
    var rest := NatToString(a) + " " + NatToString(b);
    assert TwoFields(opcode, a, b) == opcode + " " + rest;
    SplitOpcode(opcode, rest);
    ParseTwoFields(a, b);
  }

  /** A three-register line reads back as the binary operation its opcode names. */
  lemma ParseThreeFieldLine(op: string, a: nat, b: nat, c: nat)
    requires IsBinaryOp(op)
    ensures ParseLine(ThreeFields(BinaryOpcode(op).value, a, b, c)) == Some(AsmBinaryOpStmt(op, a, b, c))
  {
    var opcode := BinaryOpcode(op).value;
    var rest := NatToString(a) + " " + NatToString(b) + " " + NatToString(c);
    assert ThreeFields(opcode, a, b, c) == opcode + " " + rest;
    BinaryOpcodeHasNoSpace(op);
    SplitOpcode(opcode, rest);
    assert ParseLine(ThreeFields(opcode, a, b, c)) == ParseFields(opcode, rest);
    BinaryOpcodeInverse(op);
    ParseBinaryFields(opcode, rest);
    ParseThreeFields(a, b, c);
    assert ParseThree(rest) == Some((a, b, c));
  }

  lemma BinaryOpcodeHasNoSpace(op: string)
    requires IsBinaryOp(op)
    ensures ' ' !in BinaryOpcode(op).value
  {
  }

  /** After a binary opcode come three decimal fields. */
  lemma ParseBinaryFields(opcode: string, rest: string)
    requires BinaryOpOf(opcode).Some?
    ensures ParseFields(opcode, rest) ==
      match ParseThree(rest)
      case None => None
      case Some((a, b, c)) => Some(AsmBinaryOpStmt(BinaryOpOf(opcode).value, a, b, c))
  {
    assert opcode != "lds" && opcode != "ldi" && opcode != "st" && opcode != "ld" && opcode != "mov" && opcode != "neg";
  }

  /** A load line reads back with its name intact, spaces included. */
  lemma ParseLoadLine(opcode: string, dst: nat, name: string)
    requires opcode == "lds" || opcode == "ldi"
    ensures ParseLine(opcode + " " + NatToString(dst) + " " + name) == Some(
      if opcode == "lds" then AsmLoadSymbolStmt(dst, name) else AsmLoadConstStmt(dst, name))
  {
    var rest := NatToString(dst) + " " + name;
    assert opcode + " " + NatToString(dst) + " " + name == opcode + " " + rest;
    SplitOpcode(opcode, rest);
    NoSpaceInNumeral(dst);
    SplitOnceAt(NatToString(dst), ' ', name);
    ParseNatToString(dst);
  }

  lemma ParseUnaryLine(op: string, dst: nat, src: nat)
    requires IsUnaryOp(op)
    ensures var s := AsmUnaryOpStmt(op, dst, src);
      ParseLine(EmitStmt(s).value) == Some(Readback(s))
  {
    if op == "+" {
      assert EmitStmt(AsmUnaryOpStmt(op, dst, src)).value == TwoFields("mov", dst, src);
      ParseTwoFieldLine("mov", dst, src);
    } else {
      assert EmitStmt(AsmUnaryOpStmt(op, dst, src)).value == TwoFields("neg", dst, src);
      ParseTwoFieldLine("neg", dst, src);
    }
  }

  lemma ParseBinaryLine(op: string, dst: nat, lhs: nat, rhs: nat)
    requires IsBinaryOp(op)
    ensures var s := AsmBinaryOpStmt(op, dst, lhs, rhs);
      ParseLine(EmitStmt(s).value) == Some(Readback(s))
  {
    assert EmitStmt(AsmBinaryOpStmt(op, dst, lhs, rhs)).value == ThreeFields(BinaryOpcode(op).value, dst, lhs, rhs);
    ParseThreeFieldLine(op, dst, lhs, rhs);
  }

  lemma ParseMemoryLine(s: Stmt)
    requires s.AsmMemoryStoreStmt? || s.AsmMemoryLoadStmt?
    ensures ParseLine(EmitStmt(s).value) == Some(Readback(s))
  {
    if s.AsmMemoryStoreStmt? {
      assert EmitStmt(s).value == TwoFields("st", s.val, s.mem);
      ParseTwoFieldLine("st", s.val, s.mem);
    } else {
      assert EmitStmt(s).value == TwoFields("ld", s.val, s.mem);
      ParseTwoFieldLine("ld", s.val, s.mem);
    }
  }

  lemma ParseMoveOrLoadLine(s: Stmt)
    requires s.AsmAssignStmt? || s.AsmLoadSymbolStmt? || s.AsmLoadConstStmt?
    ensures ParseLine(EmitStmt(s).value) == Some(Readback(s))
  {
    match s
    case AsmAssignStmt(dst, src) =>
      assert EmitStmt(s).value == TwoFields("mov", dst, src);
      ParseTwoFieldLine("mov", dst, src);
    case AsmLoadSymbolStmt(dst, name) =>
      assert EmitStmt(s).value == "lds" + " " + NatToString(dst) + " " + CString(name);
      ParseLoadLine("lds", dst, CString(name));
    case AsmLoadConstStmt(dst, name) =>
      assert EmitStmt(s).value == "ldi" + " " + NatToString(dst) + " " + CString(name);
      ParseLoadLine("ldi", dst, CString(name));
  }

  /**
   * Every line the emitter writes for an assembly-level statement reads back
   * as that statement (unary `+` as the move it prints as).
   */
  lemma ParseEmitStmt(s: Stmt)
    requires IsAsm(s) && HasOpcode(s)
    ensures ParseLine(EmitStmt(s).value) == Some(Readback(s))
  {
    if s.AsmUnaryOpStmt? {
      ParseUnaryLine(s.op, s.dst, s.src);
    } else if s.AsmBinaryOpStmt? {
      ParseBinaryLine(s.op, s.dst, s.lhs, s.rhs);
    } else if s.AsmMemoryStoreStmt? || s.AsmMemoryLoadStmt? {
      ParseMemoryLine(s);
    } else {
      ParseMoveOrLoadLine(s);
    }
  }

  /** Unary `+` and a register move print the same line. */
  lemma UnaryPlusPrintsAsMove(dst: nat, src: nat)
    ensures EmitStmt(AsmUnaryOpStmt("+", dst, src)) == EmitStmt(AsmAssignStmt(dst, src))
  {
  }

  /** A name prints only up to its first NUL, as a C string would. */
  lemma LoadNameStopsAtNul()
    ensures EmitStmt(AsmLoadConstStmt(0, "ab\0c")) == Ok("ldi 0 ab")
  {
    var name := "ab\0c";
    assert FirstIndex(name, '\0') == 2 by {
      assert name[0] != '\0' && name[1] != '\0' && name[2] == '\0';
    }
    assert CString(name) == "ab";
    assert NatToString(0) == "0" by { assert DigitChar(0) == '0'; }
    assert "ldi " + "0" + " " + "ab" == "ldi 0 ab";
  }

  /** A statement kind without a format prints as an `error unexpected` line naming its kind. */
  lemma UnexpectedKindLine(s: Stmt)
    requires !IsAsm(s)
    ensures EmitStmt(s) == Ok(UnexpectedLine(s))
    ensures IsErrorLine(UnexpectedLine(s))
  {
    var rest := "unexpected `" + KindName(s) + "`";
    assert "error unexpected `" == "error" + " " + "unexpected `";
    assert UnexpectedLine(s) == "error" + " " + rest;
    SplitOpcode("error", rest);
  }

  /** A statement kind without a format, emitted alone, yields exactly its `error unexpected` line. */
  lemma EmitUnexpectedAlone(x: Stmt)
    requires !IsAsm(x)
    ensures ApplyEmitAssembly([x]) == Ok(UnexpectedLine(x) + "\n")
  {
    UnexpectedKindLine(x);
    EmitOne(x);
  }

  /** The line of an assembly-level statement never starts with `error`. */
  lemma AsmLineIsNotError(s: Stmt)
    requires IsAsm(s) && HasOpcode(s)
    ensures !IsErrorLine(EmitStmt(s).value)
  {
    ParseEmitStmt(s);
    var line := EmitStmt(s).value;
    match SplitOnce(line, ' ')
    case Some((head, _)) =>
      assert head != "error";
    case None =>
  }

  /**
   * An IR of assembly-level statements whose operators all have opcodes is
   * emitted in full, with no `error` line.
   */
  lemma NoErrorLines(ir: seq<Stmt>)
    requires forall i :: 0 <= i < |ir| ==> IsAsm(ir[i]) && HasOpcode(ir[i])
    ensures EmitLines(ir).Ok?
    ensures forall i :: 0 <= i < |ir| ==> !IsErrorLine(EmitLines(ir).value[i])
  {
    forall i | 0 <= i < |ir| ensures !IsErrorLine(EmitLines(ir).value[i]) {
      AsmLineIsNotError(ir[i]);
    }
  }

  /** The printed part of a load statement's name contains no newline. */
  predicate OneLineNames(s: Stmt) {
    (s.AsmLoadSymbolStmt? || s.AsmLoadConstStmt?) ==> '\n' !in CString(s.name)
  }

  lemma LineHasNoNewline(s: Stmt)
    requires IsAsm(s) && HasOpcode(s) && OneLineNames(s)
    ensures '\n' !in EmitStmt(s).value
  {
    var line := EmitStmt(s).value;
    match s
    case AsmBinaryOpStmt(op, dst, lhs, rhs) =>
      NoSpaceInNumeral(dst); NoSpaceInNumeral(lhs); NoSpaceInNumeral(rhs);
    case AsmUnaryOpStmt(op, dst, src) =>
      NoSpaceInNumeral(dst); NoSpaceInNumeral(src);
    case AsmAssignStmt(dst, src) =>
      NoSpaceInNumeral(dst); NoSpaceInNumeral(src);
    case AsmMemoryStoreStmt(mem, val) =>
      NoSpaceInNumeral(mem); NoSpaceInNumeral(val);
    case AsmMemoryLoadStmt(mem, val) =>
      NoSpaceInNumeral(mem); NoSpaceInNumeral(val);
    case AsmLoadSymbolStmt(dst, name) =>
      NoSpaceInNumeral(dst);
    case AsmLoadConstStmt(dst, name) =>
      NoSpaceInNumeral(dst);
  }

  /**
   * The emitted text, read line by line and each line read back, gives the IR
   * again, statement by statement.
   */
  lemma ReadEmittedText(ir: seq<Stmt>)
    requires forall i :: 0 <= i < |ir| ==> IsAsm(ir[i]) && HasOpcode(ir[i]) && OneLineNames(ir[i])
    ensures ApplyEmitAssembly(ir).Ok?
    ensures var lines := SplitLines(ApplyEmitAssembly(ir).value);
      && |lines| == |ir|
      && forall i :: 0 <= i < |ir| ==> ParseLine(lines[i]) == Some(Readback(ir[i]))
  {
    var lines := EmitLines(ir).value;
    forall i | 0 <= i < |lines| ensures '\n' !in lines[i] {
      LineHasNoNewline(ir[i]);
    }
    SplitJoinLines(lines);
    forall i | 0 <= i < |ir| ensures ParseLine(lines[i]) == Some(Readback(ir[i])) {
      ParseEmitStmt(ir[i]);
    }
  }

  /**
   * The emitted text, cut at its newlines, has no `error` line when the IR
   * holds only assembly-level statements with supported operators and no
   * printed name contains a newline.
   */
  lemma NoErrorLinesInText(ir: seq<Stmt>)
    requires forall i :: 0 <= i < |ir| ==> IsAsm(ir[i]) && HasOpcode(ir[i]) && OneLineNames(ir[i])
    ensures ApplyEmitAssembly(ir).Ok?
    ensures var lines := SplitLines(ApplyEmitAssembly(ir).value);
      && |lines| == |ir|
      && forall i :: 0 <= i < |lines| ==> !IsErrorLine(lines[i])
  {
    NoErrorLines(ir);
    var lines := EmitLines(ir).value;
    forall i | 0 <= i < |lines| ensures '\n' !in lines[i] {
      LineHasNoNewline(ir[i]);
    }
    SplitJoinLines(lines);
  }

  /**
   * A newline in a printed name puts a second line into the text, and that
   * line may begin with `error`, although every statement has a format.
   */
  lemma NewlineInNameSplitsText(dst: nat, pre: string, rest: string)
    requires '\0' !in pre && '\0' !in rest && '\n' !in pre && '\n' !in rest
    ensures var ir := [AsmLoadConstStmt(dst, pre + "\nerror " + rest)];
      && NoErrorLinesHolds(ir)
      && ApplyEmitAssembly(ir).Ok?
      && var lines := SplitLines(ApplyEmitAssembly(ir).value);
         |lines| == 2 && IsErrorLine(lines[1])
  {
    var first := "ldi " + NatToString(dst) + " " + pre;
    var second := "error" + [' '] + rest;
    NewlineNameText(dst, pre, rest);
    NoSpaceInNumeral(dst);
    assert '\n' !in first;
    assert '\n' !in second;
    SplitTwoLines(first, second);
    SplitOnceAt("error", ' ', rest);
  }

  /** The text of one `ldi` whose name holds a newline followed by `error `. */
  lemma NewlineNameText(dst: nat, pre: string, rest: string)
    requires '\0' !in pre && '\0' !in rest
    ensures ApplyEmitAssembly([AsmLoadConstStmt(dst, pre + "\nerror " + rest)])
      == Ok(("ldi " + NatToString(dst) + " " + pre) + ['\n'] + ("error" + [' '] + rest) + "\n")
  {
    var second := "error" + [' '] + rest;
    var name := pre + ['\n'] + second;
    assert pre + "\nerror " + rest == name;
    assert '\0' !in second;
    assert '\0' !in name;
    var x := AsmLoadConstStmt(dst, name);
    var first := "ldi " + NatToString(dst) + " " + pre;
    assert CString(name) == name;
    assert EmitStmt(x) == Ok("ldi " + NatToString(dst) + " " + name);
    assert "ldi " + NatToString(dst) + " " + name == first + ['\n'] + second;
    EmitOne(x);
  }

  lemma SplitTwoLines(first: string, second: string)
    requires '\n' !in first && '\n' !in second
    ensures SplitLines(first + ['\n'] + second + "\n") == [first, second]
  {
    assert first + ['\n'] + second + "\n" == first + ['\n'] + (second + ['\n'] + "");
    SplitLinesStep(first, second + ['\n'] + "");
    SplitLinesStep(second, "");
  }

  lemma SplitLinesStep(line: string, rest: string)
    requires '\n' !in line
    ensures SplitLines(line + ['\n'] + rest) == [line] + SplitLines(rest)
  {
    SplitOnceAt(line, '\n', rest);
  }

  /** The hypothesis of `NoErrorLines`: assembly-level statements with supported operators. */
  predicate NoErrorLinesHolds(ir: seq<Stmt>) {
    forall i :: 0 <= i < |ir| ==> IsAsm(ir[i]) && HasOpcode(ir[i])
  }
}
