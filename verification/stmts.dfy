/**
 * The statement IR shared by the lowering pass and the assembly emitter.
 *
 * Symbolic statements refer to their operands by statement id (the arena of
 * the original IR); assembly-level statements refer to register ids and
 * memory-slot ids.  `OtherStmt` stands for every statement kind neither pass
 * handles; it only carries its id and its kind name.
 */
module Stmts {

  datatype Stmt =
    // symbolic statements, input of the lowering pass
    | SymbolStmt(id: nat, name: string)
    | LiteralStmt(id: nat, name: string)
    | BinaryOpStmt(id: nat, op: string, lhs: nat, rhs: nat)
    | AssignStmt(id: nat, dst: nat, src: nat)
    // assembly-level statements, output of the lowering pass
    | AsmAssignStmt(dst: nat, src: nat)
    | AsmBinaryOpStmt(op: string, dst: nat, lhs: nat, rhs: nat)
    | AsmUnaryOpStmt(op: string, dst: nat, src: nat)
    | AsmLoadConstStmt(dst: nat, name: string)
    | AsmLoadSymbolStmt(dst: nat, name: string)
    | AsmMemoryStoreStmt(mem: nat, val: nat)
    | AsmMemoryLoadStmt(mem: nat, val: nat)
    // any other statement kind
    | OtherStmt(id: nat, kind: string)

  /** The statements the lowering pass rewrites. */
  predicate IsSymbolic(s: Stmt) {
    s.SymbolStmt? || s.LiteralStmt? || s.BinaryOpStmt? || s.AssignStmt?
  }

  /** The statements the lowering pass produces. */
  predicate IsAsm(s: Stmt) {
    s.AsmAssignStmt? || s.AsmBinaryOpStmt? || s.AsmUnaryOpStmt? || s.AsmLoadConstStmt?
    || s.AsmLoadSymbolStmt? || s.AsmMemoryStoreStmt? || s.AsmMemoryLoadStmt?
  }

  /** The kind name a diagnostic reports for a statement (the class name). */
  function KindName(s: Stmt): string {
    match s
    case SymbolStmt(_, _) => "SymbolStmt"
    case LiteralStmt(_, _) => "LiterialStmt"
    case BinaryOpStmt(_, _, _, _) => "BinaryOpStmt"
    case AssignStmt(_, _, _) => "AssignStmt"
    case AsmAssignStmt(_, _) => "AsmAssignStmt"
    case AsmBinaryOpStmt(_, _, _, _) => "AsmBinaryOpStmt"
    case AsmUnaryOpStmt(_, _, _) => "AsmUnaryOpStmt"
    case AsmLoadConstStmt(_, _) => "AsmLoadConstStmt"
    case AsmLoadSymbolStmt(_, _) => "AsmLoadSymbolStmt"
    case AsmMemoryStoreStmt(_, _) => "AsmMemoryStoreStmt"
    case AsmMemoryLoadStmt(_, _) => "AsmMemoryLoadStmt"
    case OtherStmt(_, kind) => kind
  }
}
