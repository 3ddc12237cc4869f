/**
 * The abstract syntax tree of the teaching language (SintaxeAbstrata.py).
 *
 * The source is a closed hierarchy of dataclasses whose `accept` methods
 * forward to the visitor method named after the node's class.  Here every
 * node kind is a datatype constructor and each pass is an exhaustive
 * `match`, so "accept calls the visitor method of its own kind" becomes
 * Dafny's own exhaustiveness check.
 */
module Ast {
  import opened Optional

  /** `Literal.value` is exactly one of int, float, bool or str. */
  datatype LitValue =
    | IntVal(i: int)
    | FloatVal(r: real)
    | BoolVal(b: bool)
    | StrVal(s: string)

  datatype Expr =
    | BinaryExpr(op: string, left: Expr, right: Expr)
    | UnaryExpr(op: string, expr: Expr)
    | Literal(value: LitValue)
    | Identifier(name: string)
    | FunctionCall(name: string, args: seq<Expr>)

  /** `ConstDecl` and `VarDecl`: a name, an optional annotation, a value. */
  datatype Decl =
    | ConstDecl(name: string, typeSpec: Option<string>, value: Expr)
    | VarDecl(name: string, typeSpec: Option<string>, value: Expr)

  datatype Block = Block(statements: seq<Stmt>)

  /**
   * Statements.  Besides the five `Statement` subclasses, a block may hold
   * a declaration or a nested block: the grammar's statement rule produces
   * both, and both visitors dispatch them through `accept` like any other
   * statement.
   */
  datatype Stmt =
    | ExprStmt(expr: Expr)
    | AssignStmt(name: string, value: Expr)
    | ReturnStmt(returned: Option<Expr>)
    | IfStmt(condition: Expr, thenBlock: Block, elseBlock: Option<Block>)
    | WhileStmt(condition: Expr, body: Block)
    | DeclStmt(decl: Decl)
    | BlockStmt(block: Block)

  datatype Param = Param(name: string, typeSpec: string)

  datatype Item =
    | DeclItem(decl: Decl)
    | Function(name: string, params: seq<Param>, returnType: Option<string>,
               body: Block, visibility: Option<string>)

  datatype Program = Program(items: seq<Item>)

  /** The parameter names of a function, in declaration order. */
  function ParamNames(ps: seq<Param>): (r: seq<string>)
    ensures |r| == |ps|
    ensures forall i | 0 <= i < |ps| :: r[i] == ps[i].name
  {
    if ps == [] then [] else ParamNames(ps[..|ps| - 1]) + [ps[|ps| - 1].name]
  }

  // Every name an AST binds or looks up stays out of `bad`: the symbol
  // tables keep their bookkeeping keys in the same dictionaries as the
  // bindings.  `callees` says whether the names of called functions count
  // (the checker looks them up, the code generator only jumps to them).

  predicate ExprNamesAvoid(e: Expr, bad: set<string>, callees: bool)
  {
    match e
    case BinaryExpr(_, l, r) => ExprNamesAvoid(l, bad, callees) && ExprNamesAvoid(r, bad, callees)
    case UnaryExpr(_, x) => ExprNamesAvoid(x, bad, callees)
    case Literal(_) => true
    case Identifier(n) => n !in bad
    case FunctionCall(n, args) =>
      (callees ==> n !in bad) && forall a | a in args :: ExprNamesAvoid(a, bad, callees)
  }

  predicate DeclNamesAvoid(d: Decl, bad: set<string>, callees: bool)
  {
    d.name !in bad && ExprNamesAvoid(d.value, bad, callees)
  }

  predicate StmtNamesAvoid(s: Stmt, bad: set<string>, callees: bool)
  {
    match s
    case ExprStmt(e) => ExprNamesAvoid(e, bad, callees)
    case AssignStmt(n, v) => n !in bad && ExprNamesAvoid(v, bad, callees)
    case ReturnStmt(v) => v.Some? ==> ExprNamesAvoid(v.value, bad, callees)
    case IfStmt(c, t, e) =>
      ExprNamesAvoid(c, bad, callees) && BlockNamesAvoid(t.statements, bad, callees)
      && (e.Some? ==> BlockNamesAvoid(e.value.statements, bad, callees))
    case WhileStmt(c, b) => ExprNamesAvoid(c, bad, callees) && BlockNamesAvoid(b.statements, bad, callees)
    case DeclStmt(d) => DeclNamesAvoid(d, bad, callees)
    case BlockStmt(b) => BlockNamesAvoid(b.statements, bad, callees)
  }

  predicate BlockNamesAvoid(ss: seq<Stmt>, bad: set<string>, callees: bool)
  {
    forall s | s in ss :: StmtNamesAvoid(s, bad, callees)
  }

  predicate ItemNamesAvoid(it: Item, bad: set<string>, callees: bool)
  {
    match it
    case DeclItem(d) => DeclNamesAvoid(d, bad, callees)
    case Function(n, ps, _, body, _) =>
      n !in bad && (forall p | p in ps :: p.name !in bad) && BlockNamesAvoid(body.statements, bad, callees)
  }

  predicate ProgramNamesAvoid(p: Program, bad: set<string>, callees: bool)
  {
    forall it | it in p.items :: ItemNamesAvoid(it, bad, callees)
  }
}
