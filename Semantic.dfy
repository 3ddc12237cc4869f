/**
 * The type checker (SemanticVisitor.py).
 *
 * Each visit infers a type, or `None` when it is unknown, and bumps the
 * error counter.  The functions below say, for one node and one stack of
 * frames, which type comes out, how many errors are counted and what the
 * stack looks like afterwards; the `Checker` class walks the tree the way
 * the visitor does and is proved to agree with them.
 */
module Semantic {
  import opened Optional
  import opened Ast
  import ST = SymbolTable
  import Seqs

  type Ty = ST.Ty

  const COMPARISON_OPS: set<string> := {"<", ">", "<=", ">=", "==", "!="}
  const ARITHMETIC_OPS: set<string> := {"+", "-", "*", "/", "%"}
  const LOGICAL_OPS: set<string> := {"and", "or"}

  /** The built-in registered by the checker's constructor. */
  const PRINT := "print"
  const PRINT_BINDING := ST.Function(["value", ST.INT], ST.VOID)

  /** Names the checker's table cannot hold as bindings. */
  const RESERVED: set<string> := {ST.SCOPE_KEY}

  /**
   * `coercion`: the common type two operand types can be used at, if any.
   * Two numbers meet at the wider one; any other pair only at itself.
   */
  function Coercion(t1: Option<Ty>, t2: Option<Ty>): (r: Option<Ty>)
    ensures r.Some? <==> t1.Some? && t2.Some? && (t1 == t2 || (ST.IsNumber(t1) && ST.IsNumber(t2)))
    ensures r.Some? ==> r == t1 || r == t2
    ensures ST.IsNumber(t1) && ST.IsNumber(t2) ==>
      ST.IsNumber(r) && (r == Some(ST.INT) <==> t1 == Some(ST.INT) && t2 == Some(ST.INT))
  {
    if t1.None? || t2.None? then None
    else if ST.IsNumber(t1) && ST.IsNumber(t2) then
      (if t1 == Some(ST.FLOAT) || t2 == Some(ST.FLOAT) then Some(ST.FLOAT) else Some(ST.INT))
    else if t1 == t2 then t1
    else None
  }

  /** Coercion does not depend on the order of its arguments. */
  lemma CoercionSymmetric(t1: Option<Ty>, t2: Option<Ty>)
    ensures Coercion(t1, t2) == Coercion(t2, t1)
  {
  }

  /** The type of a literal: `bool` is tested before `int`. */
  function LitType(v: LitValue): (t: Ty)
    ensures v.BoolVal? <==> t == ST.BOOL
    ensures v.IntVal? <==> t == ST.INT
  {
    match v
    case BoolVal(_) => ST.BOOL
    case IntVal(_) => ST.INT
    case FloatVal(_) => ST.FLOAT
    case StrVal(_) => ST.STRING
  }

  /** What a visit of an expression yields: its type and the errors it counted. */
  datatype Typed = Typed(ty: Option<Ty>, errors: nat)

  function Flag(b: bool): nat
  {
    if b then 1 else 0
  }

  /** `paramsList[1::2]`: the types of a flattened `[name, type, ...]` list. */
  function ExpectedTypes(ps: seq<string>): (r: seq<Ty>)
    ensures |r| == |ps| / 2
    ensures forall k | 0 <= k < |r| :: r[k] == ps[2 * k + 1]
    decreases |ps|
  {
    if |ps| < 2 then [] else [ps[1]] + ExpectedTypes(ps[2..])
  }

  /** An argument counts as an error when its type is known, differs and does not coerce. */
  predicate Mismatch(expected: Ty, actual: Option<Ty>)
  {
    actual.Some? && Some(expected) != actual && Coercion(Some(expected), actual).None?
  }

  function Mismatches(expected: seq<Ty>, actual: seq<Option<Ty>>): (n: nat)
    requires |expected| == |actual|
    ensures n <= |actual|
    ensures n == 0 <==> forall k | 0 <= k < |actual| :: !Mismatch(expected[k], actual[k])
  {
    if actual == [] then 0
    else
      var k := |actual| - 1;
      Mismatches(expected[..k], actual[..k]) + Flag(Mismatch(expected[k], actual[k]))
  }

  function Types(ts: seq<Typed>): (r: seq<Option<Ty>>)
    ensures |r| == |ts| && forall k | 0 <= k < |ts| :: r[k] == ts[k].ty
  {
    seq(|ts|, k requires 0 <= k < |ts| => ts[k].ty)
  }

  function ErrorSum(ts: seq<Typed>): nat
  {
    if ts == [] then 0 else ErrorSum(ts[..|ts| - 1]) + ts[|ts| - 1].errors
  }

  /** The visit of an expression. */
  function TypeExpr(fs: seq<ST.Frame>, e: Expr): (r: Typed)
    decreases e
  {
    match e
    case BinaryExpr(op, left, right) =>
      var a := TypeExpr(fs, left);
      var b := TypeExpr(fs, right);
      var c := Coercion(a.ty, b.ty);
      var n := a.errors + b.errors;
      if op in COMPARISON_OPS then Typed(Some(ST.BOOL), n + Flag(c.None?))
      else if op in ARITHMETIC_OPS then Typed(c, n + Flag(c.None?))
      else if op in LOGICAL_OPS then
        Typed(Some(ST.BOOL), n + Flag(a.ty != Some(ST.BOOL) || b.ty != Some(ST.BOOL)))
      else Typed(c, n)
    case UnaryExpr(op, x) =>
      var a := TypeExpr(fs, x);
      if op == "!" then Typed(Some(ST.BOOL), a.errors + Flag(a.ty != Some(ST.BOOL)))
      else if op == "-" || op == "+" then Typed(a.ty, a.errors + Flag(!ST.IsNumber(a.ty)))
      else a
    case Literal(v) => Typed(Some(LitType(v)), 0)
    case Identifier(name) =>
      (match ST.Lookup(fs, name)
       case Some(b) => Typed(ST.TypeOf(b), 0)
       case None => Typed(None, 1))
    case FunctionCall(name, args) =>
      match ST.Lookup(fs, name)
      case None => Typed(None, 1)
      case Some(b) =>
        if !b.Function? then Typed(None, 1)
        else if name == PRINT then
          (if |args| != 1 then Typed(Some(ST.VOID), 1) else Typed(Some(ST.VOID), TypeExpr(fs, args[0]).errors))
        else if |b.params| / 2 != |args| then Typed(Some(b.ret), 1)
        else
          var ts := TypeArgs(fs, args);
          Typed(Some(b.ret), ErrorSum(ts) + Mismatches(ExpectedTypes(b.params), Types(ts)))
  }

  /** The visits of a call's arguments, left to right. */
  function TypeArgs(fs: seq<ST.Frame>, args: seq<Expr>): (ts: seq<Typed>)
    ensures |ts| == |args|
    ensures forall k | 0 <= k < |args| :: ts[k] == TypeExpr(fs, args[k])
    decreases args
  {
    if args == [] then []
    else TypeArgs(fs, args[..|args| - 1]) + [TypeExpr(fs, args[|args| - 1])]
  }

  /** One more argument visited: its type and its errors follow the prefix's. */
  lemma TypeArgsStep(fs: seq<ST.Frame>, args: seq<Expr>, i: nat)
    requires i < |args|
    ensures Types(TypeArgs(fs, args[..i + 1])) == Types(TypeArgs(fs, args[..i])) + [TypeExpr(fs, args[i]).ty]
    ensures ErrorSum(TypeArgs(fs, args[..i + 1])) == ErrorSum(TypeArgs(fs, args[..i])) + TypeExpr(fs, args[i]).errors
  {
    assert args[..i + 1][..i] == args[..i];
    var ts := TypeArgs(fs, args[..i + 1]);
    assert ts == TypeArgs(fs, args[..i]) + [TypeExpr(fs, args[i])];
    assert ts[..|ts| - 1] == TypeArgs(fs, args[..i]);
  }

  /** `e` mentions `n` as an identifier or as a callee. */
  predicate Mentions(e: Expr, n: string)
  {
    match e
    case BinaryExpr(_, l, r) => Mentions(l, n) || Mentions(r, n)
    case UnaryExpr(_, x) => Mentions(x, n)
    case Literal(_) => false
    case Identifier(m) => m == n
    case FunctionCall(m, args) => m == n || exists a | a in args :: Mentions(a, n)
  }

  /**
   * Using an undeclared name is never silent: if `e` mentions a name no
   * frame binds, its visit counts at least one error (the use itself, or,
   * when the arguments it sits in are skipped, the error that skipped them).
   */
  lemma {:induction false} UndeclaredIsReported(fs: seq<ST.Frame>, e: Expr, n: string)
    requires Mentions(e, n) && ST.Lookup(fs, n).None?
    ensures TypeExpr(fs, e).errors > 0
    decreases e
  {
    match e
    case BinaryExpr(_, l, r) =>
      if Mentions(l, n) { UndeclaredIsReported(fs, l, n); } else { UndeclaredIsReported(fs, r, n); }
    case UnaryExpr(_, x) =>
      UndeclaredIsReported(fs, x, n);
    case Identifier(_) =>
    case FunctionCall(m, args) =>
      if m != n && ST.Lookup(fs, m).Some? && ST.Lookup(fs, m).value.Function? {
        var b := ST.Lookup(fs, m).value;
        var a :| a in args && Mentions(a, n);
        var k :| 0 <= k < |args| && args[k] == a;
        UndeclaredIsReported(fs, a, n);
        if m == PRINT {
          if |args| == 1 {
            assert a == args[0];
          }
        } else if |b.params| / 2 == |args| {
          ErrorSumPositive(TypeArgs(fs, args), k);
        }
      }
  }

  lemma {:induction false} ErrorSumPositive(ts: seq<Typed>, k: nat)
    requires k < |ts| && ts[k].errors > 0
    ensures ErrorSum(ts) > 0
  {
    if k < |ts| - 1 {
      ErrorSumPositive(ts[..|ts| - 1], k);
    }
  }

  /**
   * The type and error count of an expression depend only on how the names
   * it mentions resolve: two stacks that agree on those type it alike.
   */
  lemma {:induction false} TypeExprDependsOnMentionedNames(fs1: seq<ST.Frame>, fs2: seq<ST.Frame>, e: Expr)
    requires forall n | Mentions(e, n) :: ST.Lookup(fs1, n) == ST.Lookup(fs2, n)
    ensures TypeExpr(fs1, e) == TypeExpr(fs2, e)
    decreases e
  {
    match e
    case BinaryExpr(_, l, r) =>
      TypeExprDependsOnMentionedNames(fs1, fs2, l);
      TypeExprDependsOnMentionedNames(fs1, fs2, r);
    case UnaryExpr(_, x) =>
      TypeExprDependsOnMentionedNames(fs1, fs2, x);
    case Literal(_) =>
    case Identifier(m) =>
      assert Mentions(e, m);
    case FunctionCall(m, args) =>
      assert Mentions(e, m);
      forall k | 0 <= k < |args|
        ensures TypeExpr(fs1, args[k]) == TypeExpr(fs2, args[k])
      {
        forall n | Mentions(args[k], n)
          ensures ST.Lookup(fs1, n) == ST.Lookup(fs2, n)
        {
          assert Mentions(e, n);
        }
        TypeExprDependsOnMentionedNames(fs1, fs2, args[k]);
      }
      assert TypeArgs(fs1, args) == TypeArgs(fs2, args);
  }

  /** The state a statement-level visit leaves: the stack and the errors it counted. */
  datatype Checked = Checked(frames: seq<ST.Frame>, errors: nat)

  /** The stack keeps its depth, its lower frames and its current scope. */
  predicate SameShape(fs: seq<ST.Frame>, gs: seq<ST.Frame>)
  {
    |gs| == |fs| && ST.Pop(gs) == ST.Pop(fs) && ST.CurrentScope(gs) == ST.CurrentScope(fs)
  }

  /** The binding a declaration adds: a constant or a variable with no offset. */
  function DeclBinding(d: Decl, ty: Option<Ty>): ST.Binding
  {
    if d.ConstDecl? then ST.Constant(ty, None) else ST.Variable(ty, None)
  }

  /** `visitConstDecl` / `visitVarDecl`: the value is typed, then the name bound in the top frame. */
  function CheckDecl(fs: seq<ST.Frame>, d: Decl): (r: Checked)
    requires |fs| > 0
    ensures SameShape(fs, r.frames)
  {
    var t := TypeExpr(fs, d.value);
    var ty := if d.typeSpec.Some? then d.typeSpec else t.ty;
    var bad := d.typeSpec.Some? && t.ty.Some? && t.ty != d.typeSpec && Coercion(t.ty, d.typeSpec).None?;
    ST.BindFacts(fs, d.name, DeclBinding(d, ty), d.name);
    Checked(ST.Bind(fs, d.name, DeclBinding(d, ty)), t.errors + Flag(bad))
  }

  /**
   * An annotated declaration binds the annotation whatever the value's type
   * and counts one error exactly when the value's type is known, differs and
   * does not coerce; an unannotated one binds the inferred type.  No other
   * name changes meaning.
   */
  lemma DeclFacts(fs: seq<ST.Frame>, d: Decl, m: string)
    requires |fs| > 0
    ensures var t := TypeExpr(fs, d.value);
      && (d.typeSpec.Some? ==> ST.TypeOf(ST.Lookup(CheckDecl(fs, d).frames, d.name).value) == d.typeSpec)
      && (d.typeSpec.None? ==> ST.TypeOf(ST.Lookup(CheckDecl(fs, d).frames, d.name).value) == t.ty)
      && (ST.Lookup(CheckDecl(fs, d).frames, d.name).value.Constant? <==> d.ConstDecl?)
      && CheckDecl(fs, d).errors - t.errors <= 1
      && (CheckDecl(fs, d).errors == t.errors + 1 <==>
            d.typeSpec.Some? && t.ty.Some? && t.ty != d.typeSpec && !(ST.IsNumber(t.ty) && ST.IsNumber(d.typeSpec)))
      && (m != d.name ==> ST.Lookup(CheckDecl(fs, d).frames, m) == ST.Lookup(fs, m))
  {
    var t := TypeExpr(fs, d.value);
    var ty := if d.typeSpec.Some? then d.typeSpec else t.ty;
    ST.BindFacts(fs, d.name, DeclBinding(d, ty), m);
  }

  /** The type a `return` carries: `void` when it has no value. */
  function ReturnType(fs: seq<ST.Frame>, v: Option<Expr>): Typed
  {
    if v.Some? then TypeExpr(fs, v.value) else Typed(Some(ST.VOID), 0)
  }

  /** `visitReturnStmt`: checked against the function named after the current scope, if it is one. */
  function ReturnErrors(fs: seq<ST.Frame>, typeExp: Option<Ty>): nat
  {
    match ST.CurrentScope(fs)
    case None => 0
    case Some(scope) =>
      match ST.Lookup(fs, scope)
      case Some(b) =>
        if b.Function? then Flag(Some(b.ret) != typeExp && Coercion(Some(b.ret), typeExp).None?) else 0
      case None => 0
  }

  /** `visitAssignStmt`: the errors counted after the value's own. */
  function AssignErrors(fs: seq<ST.Frame>, name: string, typeValue: Option<Ty>): nat
  {
    match ST.Lookup(fs, name)
    case None => 1
    case Some(b) =>
      if b.Constant? then 1
      else Flag(ST.TypeOf(b).Some? && typeValue.Some? && Coercion(ST.TypeOf(b), typeValue).None?)
  }

  /** The visit of a statement.  Blocks open no scope, so declarations in them land in the current frame. */
  function CheckStmt(fs: seq<ST.Frame>, s: Stmt): (r: Checked)
    requires |fs| > 0
    ensures SameShape(fs, r.frames)
    decreases s
  {
    match s
    case ExprStmt(e) => Checked(fs, TypeExpr(fs, e).errors)
    case AssignStmt(name, value) =>
      var t := TypeExpr(fs, value);
      Checked(fs, t.errors + AssignErrors(fs, name, t.ty))
    case ReturnStmt(v) =>
      var t := ReturnType(fs, v);
      Checked(fs, t.errors + ReturnErrors(fs, t.ty))
    case IfStmt(c, thenBlock, elseBlock) =>
      var t := TypeExpr(fs, c);
      var a := CheckBlock(fs, thenBlock.statements);
      if elseBlock.None? then Checked(a.frames, t.errors + Flag(t.ty != Some(ST.BOOL)) + a.errors)
      else
        var b := CheckBlock(a.frames, elseBlock.value.statements);
        Checked(b.frames, t.errors + Flag(t.ty != Some(ST.BOOL)) + a.errors + b.errors)
    case WhileStmt(c, body) =>
      var t := TypeExpr(fs, c);
      var a := CheckBlock(fs, body.statements);
      Checked(a.frames, t.errors + Flag(t.ty != Some(ST.BOOL)) + a.errors)
    case DeclStmt(d) => CheckDecl(fs, d)
    case BlockStmt(b) => CheckBlock(fs, b.statements)
  }

  /** `visitBlock`: the statements in order, each on the stack the previous one left. */
  function CheckBlock(fs: seq<ST.Frame>, ss: seq<Stmt>): (r: Checked)
    requires |fs| > 0
    ensures SameShape(fs, r.frames)
    decreases ss
  {
    if ss == [] then Checked(fs, 0)
    else
      var a := CheckBlock(fs, ss[..|ss| - 1]);
      var b := CheckStmt(a.frames, ss[|ss| - 1]);
      Checked(b.frames, a.errors + b.errors)
  }

  /** `[name, type, ...]`, the parameter list stored in a function binding. */
  function Flatten(ps: seq<Param>): (r: seq<string>)
    ensures |r| == 2 * |ps|
    ensures forall k | 0 <= k < |ps| :: r[2 * k] == ps[k].name && r[2 * k + 1] == ps[k].typeSpec
  {
    if ps == [] then [] else Flatten(ps[..|ps| - 1]) + [ps[|ps| - 1].name, ps[|ps| - 1].typeSpec]
  }

  /** The parameters as the variables bound in the function's frame. */
  function ParamDecls(ps: seq<Param>): (r: seq<(string, ST.Binding)>)
    ensures |r| == |ps|
    ensures forall k | 0 <= k < |ps| :: r[k].0 == ps[k].name && r[k].1 == ST.Variable(Some(ps[k].typeSpec), None)
  {
    seq(|ps|, k requires 0 <= k < |ps| => (ps[k].name, ST.Variable(Some(ps[k].typeSpec), None)))
  }

  /** One more parameter bound by the parameter loop: the pair at `2 * k` of the flattened list. */
  lemma ParamBindStep(fs: seq<ST.Frame>, ps: seq<Param>, k: nat)
    requires |fs| > 0 && k < |ps|
    ensures var r := ST.BindAll(fs, ParamDecls(ps)[..k]);
      && |r| > 0
      && ST.BindAll(fs, ParamDecls(ps)[..k + 1]) == ST.Bind(r, Flatten(ps)[2 * k], ST.Variable(Some(Flatten(ps)[2 * k + 1]), None))
  {
    var d := ParamDecls(ps);
    ST.BindAllKeepsLower(fs, d[..k]);
    Seqs.TakeLast(d, k);
  }

  /** A missing or empty return annotation means `void`. */
  function DeclaredReturn(returnType: Option<string>): Ty
  {
    if returnType.Some? && returnType.value != "" then returnType.value else ST.VOID
  }

  /** The binding `visitFunction` adds for a function item. */
  function FunctionBinding(ps: seq<Param>, returnType: Option<string>): ST.Binding
  {
    ST.Function(Flatten(ps), DeclaredReturn(returnType))
  }

  /** The stack on which a function's body is checked. */
  function BodyFrames(fs: seq<ST.Frame>, name: string, ps: seq<Param>, returnType: Option<string>): (r: seq<ST.Frame>)
    requires |fs| > 0
    ensures |r| == |fs| + 1 && ST.Pop(r) == ST.Bind(fs, name, FunctionBinding(ps, returnType))
    ensures ST.CurrentScope(r) == Some(name)
  {
    var pushed := ST.Bind(fs, name, FunctionBinding(ps, returnType)) + [ST.Frame(name, map[])];
    ST.BindAllKeepsLower(pushed, ParamDecls(ps));
    ST.BeginScopeFacts(ST.Bind(fs, name, FunctionBinding(ps, returnType)), name, name);
    ST.BindAll(pushed, ParamDecls(ps))
  }

  /**
   * In a function's body a parameter resolves, in the function's own scope,
   * to a variable of its declared type; when two parameters share a name the
   * later one wins.
   */
  lemma BodyFramesBindsParam(fs: seq<ST.Frame>, name: string, ps: seq<Param>, returnType: Option<string>, j: nat)
    requires |fs| > 0 && j < |ps|
    requires forall k | j < k < |ps| :: ps[k].name != ps[j].name
    ensures ST.Lookup(BodyFrames(fs, name, ps, returnType), ps[j].name) == Some(ST.Variable(Some(ps[j].typeSpec), None))
    ensures ST.ScopeOf(BodyFrames(fs, name, ps, returnType), ps[j].name) == Some(name)
  {
    var bound := ST.Bind(fs, name, FunctionBinding(ps, returnType));
    ST.BeginScopeFacts(bound, name, name);
    ST.BindAllLast(bound + [ST.Frame(name, map[])], ParamDecls(ps), j);
  }

  /**
   * Any other name resolves in a function's body as it did before the
   * function was declared, except the function's own name, which resolves
   * to its new binding in the enclosing scope (so recursion type-checks).
   */
  lemma BodyFramesOtherNames(fs: seq<ST.Frame>, name: string, ps: seq<Param>, returnType: Option<string>, m: string)
    requires |fs| > 0
    requires forall k | 0 <= k < |ps| :: ps[k].name != m
    ensures m != name ==> ST.Lookup(BodyFrames(fs, name, ps, returnType), m) == ST.Lookup(fs, m)
    ensures m != name ==> ST.ScopeOf(BodyFrames(fs, name, ps, returnType), m) == ST.ScopeOf(fs, m)
    ensures m == name ==> ST.Lookup(BodyFrames(fs, name, ps, returnType), m) == Some(FunctionBinding(ps, returnType))
    ensures m == name ==> ST.ScopeOf(BodyFrames(fs, name, ps, returnType), m) == ST.CurrentScope(fs)
  {
    var bound := ST.Bind(fs, name, FunctionBinding(ps, returnType));
    ST.BindFacts(fs, name, FunctionBinding(ps, returnType), m);
    ST.BeginScopeFacts(bound, name, m);
    ST.BindAllOther(bound + [ST.Frame(name, map[])], ParamDecls(ps), m);
  }

  /** `visitConstDecl`/`visitVarDecl` at top level, or `visitFunction`. */
  function CheckItem(fs: seq<ST.Frame>, it: Item): (r: Checked)
    requires |fs| > 0
  {
    match it
    case DeclItem(d) => CheckDecl(fs, d)
    case Function(name, ps, returnType, body, _) =>
      var inner := CheckBlock(BodyFrames(fs, name, ps, returnType), body.statements);
      Checked(ST.Pop(inner.frames), inner.errors)
  }

  /**
   * A function item leaves the stack as it found it except for its own
   * binding in the current frame: the frame it pushed for its parameters and
   * locals is gone, and so is everything declared in it.
   */
  lemma FunctionLeavesOnlyItsBinding(fs: seq<ST.Frame>, name: string, ps: seq<Param>,
                                     returnType: Option<string>, body: Block, vis: Option<string>, m: string)
    requires |fs| > 0
    ensures CheckItem(fs, Function(name, ps, returnType, body, vis)).frames
         == ST.Bind(fs, name, FunctionBinding(ps, returnType))
    ensures m != name ==> ST.Lookup(CheckItem(fs, Function(name, ps, returnType, body, vis)).frames, m) == ST.Lookup(fs, m)
  {
    var inner := CheckBlock(BodyFrames(fs, name, ps, returnType), body.statements);
    var bound := ST.Bind(fs, name, FunctionBinding(ps, returnType));
    assert |ST.Pop(inner.frames)| == |bound|;
    ST.BindFacts(fs, name, FunctionBinding(ps, returnType), m);
    assert bound == ST.Pop(bound) + [bound[|bound| - 1]];
    assert ST.Pop(inner.frames) == bound;
  }

  /** `visitProgram`: the items in order. */
  function CheckProgram(fs: seq<ST.Frame>, items: seq<Item>): (r: Checked)
    requires |fs| > 0
    ensures |r.frames| == |fs|
  {
    if items == [] then Checked(fs, 0)
    else
      var a := CheckProgram(fs, items[..|items| - 1]);
      var b := CheckItem(a.frames, items[|items| - 1]);
      Checked(b.frames, a.errors + b.errors)
  }

  /** Two operand types meet: both known, and equal or both numbers. */
  predicate Compatible(t1: Option<Ty>, t2: Option<Ty>)
  {
    t1.Some? && t2.Some? && (t1 == t2 || (ST.IsNumber(t1) && ST.IsNumber(t2)))
  }

  /**
   * Binary operators: a comparison is `bool` and counts one error when the
   * operand types do not meet; arithmetic has the type they meet at, a
   * float as soon as one side is, and counts the same error; `and`/`or`
   * are `bool` and count one error unless both sides are `bool`. Any other
   * operator takes the meeting type and counts nothing of its own.
   */
  lemma BinaryTyping(fs: seq<ST.Frame>, op: string, left: Expr, right: Expr)
    ensures var a := TypeExpr(fs, left);
      var b := TypeExpr(fs, right);
      var t := TypeExpr(fs, BinaryExpr(op, left, right));
      && (op in COMPARISON_OPS ==>
            t.ty == Some(ST.BOOL) && t.errors == a.errors + b.errors + Flag(!Compatible(a.ty, b.ty)))
      && (op in ARITHMETIC_OPS ==>
            && t.errors == a.errors + b.errors + Flag(!Compatible(a.ty, b.ty))
            && (t.ty.Some? <==> Compatible(a.ty, b.ty))
            && (t.ty.Some? ==> t.ty == a.ty || t.ty == b.ty)
            && (ST.IsNumber(a.ty) && ST.IsNumber(b.ty) ==>
                  (t.ty == Some(ST.FLOAT) <==> a.ty == Some(ST.FLOAT) || b.ty == Some(ST.FLOAT))))
      && (op in LOGICAL_OPS ==>
            t.ty == Some(ST.BOOL) && t.errors == a.errors + b.errors + Flag(a.ty != Some(ST.BOOL) || b.ty != Some(ST.BOOL)))
      && (op !in COMPARISON_OPS && op !in ARITHMETIC_OPS && op !in LOGICAL_OPS ==>
            t.errors == a.errors + b.errors && (t.ty.Some? <==> Compatible(a.ty, b.ty)))
  {
    OperatorKindsDisjoint();
  }

  /** No operator is of two kinds. */
  lemma OperatorKindsDisjoint()
    ensures COMPARISON_OPS !! ARITHMETIC_OPS && COMPARISON_OPS !! LOGICAL_OPS && ARITHMETIC_OPS !! LOGICAL_OPS
  {
  }

  /**
   * Unary operators: `!` is `bool` and counts one error unless its operand
   * is `bool`; `-` and `+` keep the operand's type and count one error
   * unless it is a number; any other operator passes the operand through.
   */
  lemma UnaryTyping(fs: seq<ST.Frame>, op: string, x: Expr)
    ensures var a := TypeExpr(fs, x);
      var t := TypeExpr(fs, UnaryExpr(op, x));
      && (op == "!" ==> t.ty == Some(ST.BOOL) && t.errors == a.errors + Flag(a.ty != Some(ST.BOOL)))
      && (op == "-" || op == "+" ==> t.ty == a.ty && t.errors == a.errors + Flag(!ST.IsNumber(a.ty)))
      && (op != "!" && op != "-" && op != "+" ==> t == a)
  {
  }

  /** The positions of the arguments whose known type differs from the parameter's and does not coerce. */
  ghost function Clashes(expected: seq<Ty>, actual: seq<Option<Ty>>): set<int>
    requires |expected| == |actual|
  {
    set k | 0 <= k < |actual| && Mismatch(expected[k], actual[k])
  }

  /** `Mismatches` counts the clashing positions. */
  lemma {:induction false} MismatchesCountsClashes(expected: seq<Ty>, actual: seq<Option<Ty>>)
    requires |expected| == |actual|
    ensures Mismatches(expected, actual) == |Clashes(expected, actual)|
    decreases |actual|
  {
    if actual != [] {
      var n := |actual| - 1;
      MismatchesCountsClashes(expected[..n], actual[..n]);
      ClashesSnoc(expected, actual);
    }
  }

  /** The clashing positions of a longer list: the prefix's, and the last one if it clashes. */
  lemma ClashesSnoc(expected: seq<Ty>, actual: seq<Option<Ty>>)
    requires |expected| == |actual| > 0
    ensures var n := |actual| - 1;
      && n !in Clashes(expected[..n], actual[..n])
      && Clashes(expected, actual)
         == Clashes(expected[..n], actual[..n]) + (if Mismatch(expected[n], actual[n]) then {n} else {})
  {
    var n := |actual| - 1;
    var prefix := Clashes(expected[..n], actual[..n]);
    forall k ensures k in Clashes(expected, actual) <==> k in prefix || (k == n && Mismatch(expected[n], actual[n]))
    {
      if 0 <= k < n {
        assert expected[..n][k] == expected[k] && actual[..n][k] == actual[k];
      }
    }
  }

  /** The parameter types a call's arguments are checked against, and the arguments' types. */
  lemma CallTypes(fs: seq<ST.Frame>, args: seq<Expr>, params: seq<string>, k: nat)
    requires |params| / 2 == |args| && k < |args|
    ensures ExpectedTypes(params)[k] == params[2 * k + 1]
    ensures Types(TypeArgs(fs, args))[k] == TypeExpr(fs, args[k]).ty
  {
  }

  /**
   * A call has five outcomes: an undeclared callee, or one that is not a
   * function, is untyped with one error and its arguments unvisited;
   * `print` is `void`, with one error unless it has exactly one argument,
   * whose errors it then counts; a wrong number of arguments is one error
   * at the declared return type, arguments unvisited; otherwise the
   * arguments' own errors plus one per argument whose type clashes with its
   * parameter's.
   */
  lemma CallOutcomes(fs: seq<ST.Frame>, name: string, args: seq<Expr>)
    ensures var b := ST.Lookup(fs, name);
      var t := TypeExpr(fs, FunctionCall(name, args));
      && (b.None? || !b.value.Function? ==> t == Typed(None, 1))
      && (b.Some? && b.value.Function? && name == PRINT ==>
            && t.ty == Some(ST.VOID)
            && (|args| != 1 ==> t.errors == 1)
            && (|args| == 1 ==> t.errors == TypeExpr(fs, args[0]).errors))
      && (b.Some? && b.value.Function? && name != PRINT && |b.value.params| / 2 != |args| ==>
            t == Typed(Some(b.value.ret), 1))
      && (b.Some? && b.value.Function? && name != PRINT && |b.value.params| / 2 == |args| ==>
            && t.ty == Some(b.value.ret)
            && t.errors == ErrorSum(TypeArgs(fs, args)) + |Clashes(ExpectedTypes(b.value.params), Types(TypeArgs(fs, args)))|)
  {
    var b := ST.Lookup(fs, name);
    if b.Some? && b.value.Function? && name != PRINT && |b.value.params| / 2 == |args| {
      MismatchesCountsClashes(ExpectedTypes(b.value.params), Types(TypeArgs(fs, args)));
    }
  }

  /**
   * Which arguments clash: argument `k` clashes exactly when its type is
   * known, differs from the type at `2 * k + 1` of the flattened parameter
   * list, and the two are not both numbers.
   */
  lemma ClashingArgument(fs: seq<ST.Frame>, args: seq<Expr>, params: seq<string>, k: nat)
    requires |params| / 2 == |args| && k < |args|
    ensures var a := TypeExpr(fs, args[k]).ty;
      k in Clashes(ExpectedTypes(params), Types(TypeArgs(fs, args)))
      <==> a.Some? && a != Some(params[2 * k + 1]) && !(ST.IsNumber(a) && ST.IsNumber(Some(params[2 * k + 1])))
  {
    CallTypes(fs, args, params, k);
  }

  /**
   * `visitReturnStmt`: the stack is unchanged; a bare `return` is `void`;
   * one error is counted exactly when the current scope names a function
   * whose declared return type differs from the value's and the two are not
   * both numbers (an untyped value always clashes).
   */
  lemma ReturnOutcomes(fs: seq<ST.Frame>, v: Option<Expr>)
    requires |fs| > 0
    ensures var t := ReturnType(fs, v);
      var r := CheckStmt(fs, ReturnStmt(v));
      var b := ST.Lookup(fs, ST.CurrentScope(fs).value);
      && r.frames == fs
      && (v.None? ==> t == Typed(Some(ST.VOID), 0))
      && (v.Some? ==> t == TypeExpr(fs, v.value))
      && (r.errors == t.errors || r.errors == t.errors + 1)
      && (r.errors == t.errors + 1 <==>
            b.Some? && b.value.Function? && Some(b.value.ret) != t.ty
            && !(ST.IsNumber(Some(b.value.ret)) && ST.IsNumber(t.ty)))
  {
  }

  /** The name an item binds in the frame it is checked in. */
  function ItemName(it: Item): string
  {
    match it
    case DeclItem(d) => d.name
    case Function(name, _, _, _, _) => name
  }

  /**
   * `visitProgram` leaves every name that no item declares resolving as
   * before: each function's scope is gone once its body has been checked.
   */
  lemma {:induction false} ProgramKeepsOtherNames(fs: seq<ST.Frame>, items: seq<Item>, m: string)
    requires |fs| > 0
    requires forall k | 0 <= k < |items| :: ItemName(items[k]) != m
    ensures ST.Lookup(CheckProgram(fs, items).frames, m) == ST.Lookup(fs, m)
    decreases |items|
  {
    if items != [] {
      var prefix := items[..|items| - 1];
      var a := CheckProgram(fs, prefix);
      ProgramKeepsOtherNames(fs, prefix, m);
      match items[|items| - 1]
      case DeclItem(d) => DeclFacts(a.frames, d, m);
      case Function(name, ps, returnType, body, vis) =>
        FunctionLeavesOnlyItsBinding(a.frames, name, ps, returnType, body, vis, m);
    }
  }

  /**
   * Assignment has three outcomes: an undeclared target and a constant
   * target each count one error; otherwise one error is counted only when
   * both types are known and do not coerce.  The stack is never changed.
   */
  lemma AssignOutcomes(fs: seq<ST.Frame>, name: string, value: Expr)
    requires |fs| > 0
    ensures var t := TypeExpr(fs, value);
      var r := CheckStmt(fs, AssignStmt(name, value));
      && r.frames == fs
      && (ST.Lookup(fs, name).None? ==> r.errors == t.errors + 1)
      && (ST.Lookup(fs, name).Some? && ST.Lookup(fs, name).value.Constant? ==> r.errors == t.errors + 1)
      && (ST.Lookup(fs, name).Some? && !ST.Lookup(fs, name).value.Constant? ==>
            (r.errors == t.errors + 1 <==>
               ST.TypeOf(ST.Lookup(fs, name).value).Some? && t.ty.Some?
               && ST.TypeOf(ST.Lookup(fs, name).value) != t.ty
               && !(ST.IsNumber(t.ty) && ST.IsNumber(ST.TypeOf(ST.Lookup(fs, name).value)))))
  {
  }

  /** A condition whose type is not exactly `bool`, unknown included, counts one error; the body is still checked. */
  lemma ConditionMustBeBool(fs: seq<ST.Frame>, c: Expr, body: Block, elseBlock: Option<Block>)
    requires |fs| > 0
    ensures var t := TypeExpr(fs, c);
      var w := CheckStmt(fs, WhileStmt(c, body));
      var i := CheckStmt(fs, IfStmt(c, body, elseBlock));
      && w.errors == t.errors + Flag(t.ty != Some(ST.BOOL)) + CheckBlock(fs, body.statements).errors
      && var a := CheckBlock(fs, body.statements);
      && i.errors == t.errors + Flag(t.ty != Some(ST.BOOL)) + a.errors
                     + (if elseBlock.Some? then CheckBlock(a.frames, elseBlock.value.statements).errors else 0)
  {
    var t := TypeExpr(fs, c);
    var a := CheckBlock(fs, body.statements);
    WhileErrors(fs, c, body);
    IfErrors(fs, c, body, elseBlock);
  }

  lemma WhileErrors(fs: seq<ST.Frame>, c: Expr, body: Block)
    requires |fs| > 0
    ensures var t := TypeExpr(fs, c);
      CheckStmt(fs, WhileStmt(c, body)).errors == t.errors + Flag(t.ty != Some(ST.BOOL)) + CheckBlock(fs, body.statements).errors
  {
    var t := TypeExpr(fs, c);
    var a := CheckBlock(fs, body.statements);
    assert CheckStmt(fs, WhileStmt(c, body)) == Checked(a.frames, t.errors + Flag(t.ty != Some(ST.BOOL)) + a.errors);
  }

  lemma IfErrors(fs: seq<ST.Frame>, c: Expr, body: Block, elseBlock: Option<Block>)
    requires |fs| > 0
    ensures var t := TypeExpr(fs, c);
      var a := CheckBlock(fs, body.statements);
      CheckStmt(fs, IfStmt(c, body, elseBlock)).errors
      == t.errors + Flag(t.ty != Some(ST.BOOL)) + a.errors
         + (if elseBlock.Some? then CheckBlock(a.frames, elseBlock.value.statements).errors else 0)
  {
    if elseBlock.Some? {
      IfElseErrors(fs, c, body, elseBlock.value);
    } else {
      var t := TypeExpr(fs, c);
      var a := CheckBlock(fs, body.statements);
      assert CheckStmt(fs, IfStmt(c, body, None)) == Checked(a.frames, t.errors + Flag(t.ty != Some(ST.BOOL)) + a.errors);
    }
  }

  lemma IfElseErrors(fs: seq<ST.Frame>, c: Expr, body: Block, elseBlock: Block)
    requires |fs| > 0
    ensures var t := TypeExpr(fs, c);
      var a := CheckBlock(fs, body.statements);
      CheckStmt(fs, IfStmt(c, body, Some(elseBlock))).errors
      == t.errors + Flag(t.ty != Some(ST.BOOL)) + a.errors + CheckBlock(a.frames, elseBlock.statements).errors
  {
    var t := TypeExpr(fs, c);
    var a := CheckBlock(fs, body.statements);
    var b := CheckBlock(a.frames, elseBlock.statements);
    assert CheckStmt(fs, IfStmt(c, body, Some(elseBlock))) == Checked(b.frames, t.errors + Flag(t.ty != Some(ST.BOOL)) + a.errors + b.errors);
  }

  lemma CheckBlockSnoc(fs: seq<ST.Frame>, ss: seq<Stmt>, s: Stmt)
    requires |fs| > 0
    ensures CheckBlock(fs, ss + [s]).frames == CheckStmt(CheckBlock(fs, ss).frames, s).frames
    ensures CheckBlock(fs, ss + [s]).errors == CheckBlock(fs, ss).errors + CheckStmt(CheckBlock(fs, ss).frames, s).errors
  {
    assert (ss + [s])[..|ss|] == ss;
  }

  lemma CheckProgramSnoc(fs: seq<ST.Frame>, items: seq<Item>, it: Item)
    requires |fs| > 0
    ensures CheckProgram(fs, items + [it]).frames == CheckItem(CheckProgram(fs, items).frames, it).frames
    ensures CheckProgram(fs, items + [it]).errors == CheckProgram(fs, items).errors + CheckItem(CheckProgram(fs, items).frames, it).errors
  {
    assert (items + [it])[..|items|] == items;
  }

  /** The i-th turn of the item loop. */
  lemma CheckProgramStep(fs: seq<ST.Frame>, items: seq<Item>, i: nat)
    requires |fs| > 0 && i < |items|
    ensures CheckProgram(fs, items[..i + 1]).frames == CheckItem(CheckProgram(fs, items[..i]).frames, items[i]).frames
    ensures CheckProgram(fs, items[..i + 1]).errors == CheckProgram(fs, items[..i]).errors + CheckItem(CheckProgram(fs, items[..i]).frames, items[i]).errors
  {
    Seqs.TakeSnoc(items, i);
    CheckProgramSnoc(fs, items[..i], items[i]);
  }

  /** The stack the checker starts from: a global frame holding the built-in `print`. */
  function InitialFrames(): (fs: seq<ST.Frame>)
    ensures |fs| == 1 && ST.CurrentScope(fs) == Some("global")
  {
    [ST.Frame("global", map[PRINT := PRINT_BINDING])]
  }

  function Int(i: int): Expr
  {
    Literal(IntVal(i))
  }

  /** A value annotated `bool` but computed as `int` is one error. */
  lemma ExampleIncompatibleConstant()
    ensures CheckProgram(InitialFrames(), [
        DeclItem(ConstDecl("x", Some("int"), Int(10))),
        DeclItem(ConstDecl("y", Some("bool"), Identifier("x")))]).errors == 1
  {
    var fs := InitialFrames();
    var x := DeclItem(ConstDecl("x", Some("int"), Int(10)));
    var y := DeclItem(ConstDecl("y", Some("bool"), Identifier("x")));
    CheckProgramSnoc(fs, [], x);
    var a := CheckDecl(fs, x.decl);
    assert a.errors == 0;
    ST.BindFacts(fs, "x", ST.Constant(Some("int"), None), "x");
    CheckProgramSnoc(fs, [x], y);
    assert [x] + [y] == [x, y];
  }

  /**
   * Returning an undeclared name from a `void` function: the use of `z` is
   * one error, and its unknown type then fails the return check, a second.
   */
  lemma ExampleUndeclaredReturn()
    ensures CheckProgram(InitialFrames(), [
        Function("main", [], Some("void"), Block([ReturnStmt(Some(Identifier("z")))]), None)]).errors == 2
  {
    var fs := InitialFrames();
    var main := Function("main", [], Some("void"), Block([ReturnStmt(Some(Identifier("z")))]), None);
    var body := BodyFrames(fs, "main", [], Some("void"));
    var bound := ST.Bind(fs, "main", ST.Function([], "void"));
    assert ParamDecls([]) == [];
    assert body == bound + [ST.Frame("main", map[])];
    ST.BindFacts(fs, "main", ST.Function([], "void"), "z");
    ST.BeginScopeFacts(bound, "main", "main");
    ST.BeginScopeFacts(bound, "main", "z");
    assert ST.Lookup(fs, "z") == None;
    assert ST.Lookup(body, "z") == None;
    assert ST.Lookup(body, "main") == Some(ST.Function([], "void"));
    CheckBlockSnoc(body, [], ReturnStmt(Some(Identifier("z"))));
    assert CheckBlock(body, [ReturnStmt(Some(Identifier("z")))]).errors == 2;
    CheckProgramSnoc(fs, [], main);
  }

  const ADD_PARAMS := [Param("a", "int"), Param("b", "int")]
  const ADD_RETURN := ReturnStmt(Some(BinaryExpr("+", Identifier("a"), Identifier("b"))))
  const ADD_ITEM := Function("add", ADD_PARAMS, Some("int"), Block([ADD_RETURN]), None)
  const SHORT_CALL := DeclStmt(VarDecl("c", Some("int"), FunctionCall("add", [Literal(IntVal(1))])))
  const MAIN_ITEM := Function("main", [], Some("void"), Block([SHORT_CALL]), None)

  /** `fn add(a: int, b: int) int { return a + b; }` is clean and leaves only its binding. */
  lemma ExampleAddIsClean()
    ensures CheckItem(InitialFrames(), ADD_ITEM).errors == 0
    ensures CheckItem(InitialFrames(), ADD_ITEM).frames
         == ST.Bind(InitialFrames(), "add", ST.Function(["a", "int", "b", "int"], "int"))
  {
    var fs := InitialFrames();
    AddBodyClean(fs);
    FunctionLeavesOnlyItsBinding(fs, "add", ADD_PARAMS, Some("int"), Block([ADD_RETURN]), None, "add");
    assert Flatten(ADD_PARAMS) == ["a", "int", "b", "int"];
  }

  /** The body of `add` checks without errors. */
  lemma AddBodyClean(fs: seq<ST.Frame>)
    requires fs == InitialFrames()
    ensures CheckBlock(BodyFrames(fs, "add", ADD_PARAMS, Some("int")), [ADD_RETURN]).errors == 0
  {
    var addFrames := BodyFrames(fs, "add", ADD_PARAMS, Some("int"));
    AddScope(fs);
    CheckBlockSnoc(addFrames, [], ADD_RETURN);
  }

  /** Inside `add`, both parameters are `int` variables and `add` is the function itself. */
  lemma AddScope(fs: seq<ST.Frame>)
    requires fs == InitialFrames()
    ensures var frames := BodyFrames(fs, "add", ADD_PARAMS, Some("int"));
      var varA := ST.Variable(Some("int"), None);
      && ST.Lookup(frames, "a") == Some(varA)
      && ST.Lookup(frames, "b") == Some(varA)
      && ST.Lookup(frames, "add") == Some(ST.Function(Flatten(ADD_PARAMS), "int"))
      && FunctionBinding(ADD_PARAMS, Some("int")) == ST.Function(Flatten(ADD_PARAMS), "int")
  {
    var addBinding := ST.Function(Flatten(ADD_PARAMS), "int");
    var bound := ST.Bind(fs, "add", addBinding);
    var pushed := bound + [ST.Frame("add", map[])];
    var varA := ST.Variable(Some("int"), None);
    assert ParamDecls(ADD_PARAMS) == [("a", varA), ("b", varA)];
    assert ParamDecls(ADD_PARAMS)[..1] == [("a", varA)];
    assert ParamDecls(ADD_PARAMS)[..1][..0] == [];
    var addFrames := BodyFrames(fs, "add", ADD_PARAMS, Some("int"));
    assert FunctionBinding(ADD_PARAMS, Some("int")) == addBinding;
    assert ST.BindAll(pushed, ParamDecls(ADD_PARAMS)[..1]) == ST.Bind(pushed, "a", varA);
    assert addFrames == ST.Bind(ST.Bind(pushed, "a", varA), "b", varA);
    ST.BindFacts(ST.Bind(pushed, "a", varA), "b", varA, "a");
    ST.BindFacts(pushed, "a", varA, "a");
    ST.BindFacts(ST.Bind(pushed, "a", varA), "b", varA, "add");
    ST.BindFacts(pushed, "a", varA, "add");
    ST.BindFacts(fs, "add", addBinding, "add");
    ST.BeginScopeFacts(bound, "add", "add");
  }

  /** Inside `main` after `add`, `add` resolves to its declaration. */
  lemma ShortCallScope(fs: seq<ST.Frame>)
    requires fs == AddFrames()
    ensures var frames := BodyFrames(fs, "main", [], Some("void"));
      ST.Lookup(frames, "add") == Some(ST.Function(["a", "int", "b", "int"], "int"))
  {
    var addBinding := ST.Function(["a", "int", "b", "int"], "int");
    var mainFrames := BodyFrames(fs, "main", [], Some("void"));
    var mainBound := ST.Bind(fs, "main", ST.Function([], "void"));
    assert ParamDecls([]) == [];
    assert Flatten([]) == [];
    assert mainFrames == mainBound + [ST.Frame("main", map[])];
    ST.BindFacts(InitialFrames(), "add", addBinding, "add");
    ST.BindFacts(fs, "main", ST.Function([], "void"), "add");
    ST.BeginScopeFacts(mainBound, "main", "add");
  }

  /** `fn main() void { var c: int = add(1); }` after `add`: one arity error. */
  lemma ExampleShortCall(fs: seq<ST.Frame>)
    requires fs == AddFrames()
    ensures CheckItem(fs, MAIN_ITEM).errors == 1
  {
    var mainFrames := BodyFrames(fs, "main", [], Some("void"));
    ShortCallScope(fs);
    CheckBlockSnoc(mainFrames, [], SHORT_CALL);
    assert CheckBlock(mainFrames, [SHORT_CALL]).errors == 1;
  }

  /** The stack once `add` is declared. */
  function AddFrames(): seq<ST.Frame>
  {
    ST.Bind(InitialFrames(), "add", ST.Function(["a", "int", "b", "int"], "int"))
  }

  /** The program holding only `add` is clean and binds `add`. */
  lemma ExampleAddProgram()
    ensures CheckProgram(InitialFrames(), [ADD_ITEM]) == Checked(AddFrames(), 0)
  {
    CheckProgramSnoc(InitialFrames(), [], ADD_ITEM);
    assert [] + [ADD_ITEM] == [ADD_ITEM];
    ExampleAddIsClean();
  }

  /** Calling a two-parameter function with one argument is one error. */
  lemma ExampleArity()
    ensures CheckProgram(InitialFrames(), [ADD_ITEM, MAIN_ITEM]).errors == 1
  {
    ExampleAddProgram();
    ExampleShortCall(AddFrames());
    CheckProgramSnoc(InitialFrames(), [ADD_ITEM], MAIN_ITEM);
    assert [ADD_ITEM] + [MAIN_ITEM] == [ADD_ITEM, MAIN_ITEM];
  }

  const CLEAN_IF := IfStmt(BinaryExpr(">", Identifier("x"), Identifier("y")),
                           Block([AssignStmt("y", Identifier("x"))]),
                           Some(Block([AssignStmt("y", BinaryExpr("+", Identifier("y"), Int(1)))])))
  const CLEAN_MAIN := Function("main", [], Some("void"), Block([CLEAN_IF, ReturnStmt(None)]), None)

  /** Inside `main` of the well-typed example, `x`, `y` and `main` resolve to their declarations. */
  lemma CleanMainScope(fs: seq<ST.Frame>)
    requires fs == ST.Bind(ST.Bind(InitialFrames(), "x", ST.Constant(Some("int"), None)),
                           "y", ST.Variable(Some("int"), None))
    ensures var frames := BodyFrames(fs, "main", [], Some("void"));
      && ST.Lookup(frames, "x") == Some(ST.Constant(Some("int"), None))
      && ST.Lookup(frames, "y") == Some(ST.Variable(Some("int"), None))
      && ST.Lookup(frames, "main") == Some(ST.Function([], "void"))
      && |frames| == 2 && ST.CurrentScope(frames) == Some("main")
  {
    var mainBinding := ST.Function([], "void");
    var mainBound := ST.Bind(fs, "main", mainBinding);
    var frames := BodyFrames(fs, "main", [], Some("void"));
    assert ParamDecls([]) == [];
    assert Flatten([]) == [];
    assert frames == mainBound + [ST.Frame("main", map[])];
    var x0 := ST.Bind(InitialFrames(), "x", ST.Constant(Some("int"), None));
    ST.BindFacts(InitialFrames(), "x", ST.Constant(Some("int"), None), "x");
    ST.BindFacts(x0, "y", ST.Variable(Some("int"), None), "x");
    ST.BindFacts(fs, "main", mainBinding, "x");
    ST.BindFacts(fs, "main", mainBinding, "y");
    ST.BeginScopeFacts(mainBound, "main", "x");
    ST.BeginScopeFacts(mainBound, "main", "y");
    ST.BeginScopeFacts(mainBound, "main", "main");
  }

  /** The `if` of the well-typed example, inside `main` after `x` and `y`: no error. */
  lemma CleanIfIsClean(fs: seq<ST.Frame>)
    requires fs == ST.Bind(ST.Bind(InitialFrames(), "x", ST.Constant(Some("int"), None)),
                           "y", ST.Variable(Some("int"), None))
    ensures var frames := BodyFrames(fs, "main", [], Some("void"));
      CheckStmt(frames, CLEAN_IF) == Checked(frames, 0)
  {
    var frames := BodyFrames(fs, "main", [], Some("void"));
    CleanMainScope(fs);
    var a := AssignStmt("y", Identifier("x"));
    var b := AssignStmt("y", BinaryExpr("+", Identifier("y"), Int(1)));
    CheckBlockSnoc(frames, [], a);
    CheckBlockSnoc(frames, [], b);
    assert [] + [a] == [a] && [] + [b] == [b];
  }

  /** `fn main` of the well-typed example, checked after `x` and `y` are declared: no error. */
  lemma ExampleCleanMain(fs: seq<ST.Frame>)
    requires fs == ST.Bind(ST.Bind(InitialFrames(), "x", ST.Constant(Some("int"), None)),
                           "y", ST.Variable(Some("int"), None))
    ensures CheckItem(fs, CLEAN_MAIN).errors == 0
  {
    CleanMainBody(fs);
  }

  /** The body of that `main`, the `if` and then `return;`, checks without errors. */
  lemma CleanMainBody(fs: seq<ST.Frame>)
    requires fs == ST.Bind(ST.Bind(InitialFrames(), "x", ST.Constant(Some("int"), None)),
                           "y", ST.Variable(Some("int"), None))
    ensures CheckBlock(BodyFrames(fs, "main", [], Some("void")), [CLEAN_IF, ReturnStmt(None)]).errors == 0
  {
    var frames := BodyFrames(fs, "main", [], Some("void"));
    CleanMainScope(fs);
    CleanIfIsClean(fs);
    CheckBlockSnoc(frames, [], CLEAN_IF);
    CheckBlockSnoc(frames, [CLEAN_IF], ReturnStmt(None));
    assert [CLEAN_IF] + [ReturnStmt(None)] == [CLEAN_IF, ReturnStmt(None)];
  }

  const X_ITEM := DeclItem(ConstDecl("x", Some("int"), Int(10)))
  const Y_ITEM := DeclItem(VarDecl("y", Some("int"), Int(5)))

  /** The stack once `x` and `y` of the well-typed example are declared. */
  function XYFrames(): seq<ST.Frame>
  {
    ST.Bind(ST.Bind(InitialFrames(), "x", ST.Constant(Some("int"), None)), "y", ST.Variable(Some("int"), None))
  }

  /** `const x: int = 10; var y: int = 5;` is clean and binds both names. */
  lemma ExampleDeclsXY()
    ensures CheckProgram(InitialFrames(), [X_ITEM, Y_ITEM]) == Checked(XYFrames(), 0)
  {
    var fs := InitialFrames();
    var fx := ST.Bind(fs, "x", ST.Constant(Some("int"), None));
    CheckProgramSnoc(fs, [], X_ITEM);
    assert [] + [X_ITEM] == [X_ITEM];
    assert CheckItem(fs, X_ITEM) == Checked(fx, 0);
    CheckProgramSnoc(fs, [X_ITEM], Y_ITEM);
    assert [X_ITEM] + [Y_ITEM] == [X_ITEM, Y_ITEM];
    assert CheckItem(fx, Y_ITEM) == Checked(XYFrames(), 0);
  }

  /**
   * The well-typed example: a constant and a variable compared, assigned and
   * incremented inside `main`; the checker counts no error.
   */
  lemma ExampleWellTyped()
    ensures CheckProgram(InitialFrames(), [X_ITEM, Y_ITEM, CLEAN_MAIN]).errors == 0
  {
    ExampleDeclsXY();
    ExampleCleanMain(XYFrames());
    CheckProgramSnoc(InitialFrames(), [X_ITEM, Y_ITEM], CLEAN_MAIN);
    assert [X_ITEM, Y_ITEM] + [CLEAN_MAIN] == [X_ITEM, Y_ITEM, CLEAN_MAIN];
  }

  /**
   * A stack a statement can be checked on: it has a current frame, and that
   * frame's name can be looked up (a `return` looks it up).
   */
  predicate Ready(fs: seq<ST.Frame>)
  {
    |fs| > 0 && ST.ValidName(fs[|fs| - 1].tag)
  }

  /** The visitor: its error counter and the scope stack it works on. */
  class Checker {
    var nErrors: nat
    const st: ST.Table

    /** Opens the global scope and registers the built-in `print`. */
    constructor (table: ST.Table)
      modifies table
      ensures st == table && nErrors == 0
      ensures st.frames == old(table.frames) + [ST.Frame("global", map[PRINT := PRINT_BINDING])]
    {
      st := table;
      nErrors := 0;
      new;
      table.BeginScope("global");
      table.AddFunction(PRINT, ["value", ST.INT], ST.VOID);
    }

    method GetNErrors() returns (n: nat)
      ensures n == nErrors
    {
      n := nErrors;
    }

    /** `accept` on an expression: the visit method of its kind. */
    method VisitExpr(e: Expr) returns (ty: Option<Ty>)
      requires ExprNamesAvoid(e, RESERVED, true)
      modifies this
      ensures ty == TypeExpr(st.frames, e).ty
      ensures nErrors == old(nErrors) + TypeExpr(st.frames, e).errors
      decreases e
    {
      match e
      case BinaryExpr(op, left, right) =>
        var tipoLeft := VisitExpr(left);
        var tipoRight := VisitExpr(right);
        if op in COMPARISON_OPS {
          if Coercion(tipoLeft, tipoRight).None? {
            nErrors := nErrors + 1;
          }
          return Some(ST.BOOL);
        }
        if op in ARITHMETIC_OPS {
          var c := Coercion(tipoLeft, tipoRight);
          if c.None? {
            nErrors := nErrors + 1;
          }
          return c;
        }
        if op in LOGICAL_OPS {
          if tipoLeft != Some(ST.BOOL) || tipoRight != Some(ST.BOOL) {
            nErrors := nErrors + 1;
          }
          return Some(ST.BOOL);
        }
        return Coercion(tipoLeft, tipoRight);
      case UnaryExpr(op, x) =>
        var tipoExpr := VisitExpr(x);
        if op == "!" {
          if tipoExpr != Some(ST.BOOL) {
            nErrors := nErrors + 1;
          }
          return Some(ST.BOOL);
        }
        if op == "-" || op == "+" {
          if !ST.IsNumber(tipoExpr) {
            nErrors := nErrors + 1;
          }
          return tipoExpr;
        }
        return tipoExpr;
      case Literal(v) =>
        return Some(LitType(v));
      case Identifier(name) =>
        var bindable := st.GetBindable(name);
        if bindable.Some? {
          return ST.TypeOf(bindable.value);
        }
        nErrors := nErrors + 1;
        return None;
      case FunctionCall(name, args) =>
        ty := VisitFunctionCall(name, args);
    }

    /** `visitFunctionCall`: the callee, the arity, then each argument against its parameter. */
    method VisitFunctionCall(name: string, args: seq<Expr>) returns (ty: Option<Ty>)
      requires name !in RESERVED && forall a | a in args :: ExprNamesAvoid(a, RESERVED, true)
      modifies this
      ensures ty == TypeExpr(st.frames, FunctionCall(name, args)).ty
      ensures nErrors == old(nErrors) + TypeExpr(st.frames, FunctionCall(name, args)).errors
      decreases args
    {
      var bindable := st.GetBindable(name);
      if bindable.None? {
        nErrors := nErrors + 1;
        return None;
      }
      var b := bindable.value;
      if !b.Function? {
        nErrors := nErrors + 1;
        return None;
      }
      if name == PRINT {
        if |args| != 1 {
          nErrors := nErrors + 1;
        } else {
          var _ := VisitExpr(args[0]);
        }
        return Some(ST.VOID);
      }
      var paramsList := b.params;
      var expectedCount := |paramsList| / 2;
      var actualCount := |args|;
      if expectedCount != actualCount {
        nErrors := nErrors + 1;
        return Some(b.ret);
      }
      var expectedTypes := ExpectedTypes(paramsList);
      var actualTypes := VisitArgs(args);
      CountMismatches(expectedTypes, actualTypes);
      return Some(b.ret);
    }

    /** The first loop of `visitFunctionCall`: every argument visited, its type kept. */
    method VisitArgs(args: seq<Expr>) returns (actualTypes: seq<Option<Ty>>)
      requires forall a | a in args :: ExprNamesAvoid(a, RESERVED, true)
      modifies this
      ensures actualTypes == Types(TypeArgs(st.frames, args))
      ensures nErrors == old(nErrors) + ErrorSum(TypeArgs(st.frames, args))
      decreases args, 0
    {
      actualTypes := [];
      var i := 0;
      while i < |args|
        invariant 0 <= i <= |args|
        invariant actualTypes == Types(TypeArgs(st.frames, args[..i]))
        invariant nErrors == old(nErrors) + ErrorSum(TypeArgs(st.frames, args[..i]))
      {
        assert args[i] in args;
        var t := VisitExpr(args[i]);
        TypeArgsStep(st.frames, args, i);
        actualTypes := actualTypes + [t];
        i := i + 1;
      }
      assert args[..|args|] == args;
    }

    /** The second loop of `visitFunctionCall`: one error per known, incoercible argument type. */
    method CountMismatches(expectedTypes: seq<Ty>, actualTypes: seq<Option<Ty>>)
      requires |expectedTypes| == |actualTypes|
      modifies this
      ensures nErrors == old(nErrors) + Mismatches(expectedTypes, actualTypes)
    {
      var i := 0;
      while i < |actualTypes|
        invariant 0 <= i <= |actualTypes|
        invariant nErrors == old(nErrors) + Mismatches(expectedTypes[..i], actualTypes[..i])
      {
        if actualTypes[i].Some? && Some(expectedTypes[i]) != actualTypes[i] {
          if Coercion(Some(expectedTypes[i]), actualTypes[i]).None? {
            nErrors := nErrors + 1;
          }
        }
        assert expectedTypes[..i + 1][..i] == expectedTypes[..i];
        assert actualTypes[..i + 1][..i] == actualTypes[..i];
        i := i + 1;
      }
      assert expectedTypes[..i] == expectedTypes && actualTypes[..i] == actualTypes;
    }

    /** `visitConstDecl` and `visitVarDecl`. */
    method VisitDecl(d: Decl)
      requires |st.frames| > 0 && DeclNamesAvoid(d, RESERVED, true)
      modifies this, st
      ensures st.frames == CheckDecl(old(st.frames), d).frames
      ensures nErrors == old(nErrors) + CheckDecl(old(st.frames), d).errors
    {
      var typeValue := VisitExpr(d.value);
      if d.typeSpec.Some? {
        var declaredType := d.typeSpec;
        if typeValue.Some? && typeValue != declaredType {
          if Coercion(typeValue, declaredType).None? {
            nErrors := nErrors + 1;
          }
        }
        if d.ConstDecl? {
          st.AddConst(d.name, declaredType);
        } else {
          st.AddVar(d.name, declaredType);
        }
      } else {
        if d.ConstDecl? {
          st.AddConst(d.name, typeValue);
        } else {
          st.AddVar(d.name, typeValue);
        }
      }
    }

    /** `accept` on a statement. */
    method VisitStmt(s: Stmt)
      requires Ready(st.frames) && StmtNamesAvoid(s, RESERVED, true)
      modifies this, st
      ensures st.frames == CheckStmt(old(st.frames), s).frames
      ensures nErrors == old(nErrors) + CheckStmt(old(st.frames), s).errors
      decreases s
    {
      match s
      case ExprStmt(e) =>
        var _ := VisitExpr(e);
      case AssignStmt(name, value) =>
        var typeValue := VisitExpr(value);
        var bindable := st.GetBindable(name);
        if bindable.None? {
          nErrors := nErrors + 1;
          return;
        }
        if bindable.value.Constant? {
          nErrors := nErrors + 1;
          return;
        }
        var varType := ST.TypeOf(bindable.value);
        if varType.Some? && typeValue.Some? {
          if Coercion(varType, typeValue).None? {
            nErrors := nErrors + 1;
          }
        }
      case ReturnStmt(v) =>
        var typeExp: Option<Ty>;
        if v.Some? {
          typeExp := VisitExpr(v.value);
        } else {
          typeExp := Some(ST.VOID);
        }
        var scope := st.GetCurrentScope();
        var bindable := st.GetBindable(scope.value);
        if bindable.Some? && bindable.value.Function? {
          var expectedType := bindable.value.ret;
          if Some(expectedType) != typeExp {
            if Coercion(Some(expectedType), typeExp).None? {
              nErrors := nErrors + 1;
            }
          }
        }
      case IfStmt(c, thenBlock, elseBlock) =>
        var condType := VisitExpr(c);
        if condType != Some(ST.BOOL) {
          nErrors := nErrors + 1;
        }
        VisitBlock(thenBlock);
        if elseBlock.Some? {
          VisitBlock(elseBlock.value);
        }
      case WhileStmt(c, body) =>
        var condType := VisitExpr(c);
        if condType != Some(ST.BOOL) {
          nErrors := nErrors + 1;
        }
        VisitBlock(body);
      case DeclStmt(d) =>
        VisitDecl(d);
      case BlockStmt(b) =>
        VisitBlock(b);
    }

    /** `visitBlock`: no scope of its own. */
    method VisitBlock(block: Block)
      requires Ready(st.frames) && BlockNamesAvoid(block.statements, RESERVED, true)
      modifies this, st
      ensures st.frames == CheckBlock(old(st.frames), block.statements).frames
      ensures nErrors == old(nErrors) + CheckBlock(old(st.frames), block.statements).errors
      decreases block
    {
      var ss := block.statements;
      var i := 0;
      while i < |ss|
        invariant 0 <= i <= |ss|
        invariant st.frames == CheckBlock(old(st.frames), ss[..i]).frames
        invariant nErrors == old(nErrors) + CheckBlock(old(st.frames), ss[..i]).errors
      {
        assert ss[i] in ss;
        VisitStmt(ss[i]);
        assert ss[..i + 1][..i] == ss[..i];
        i := i + 1;
      }
      assert ss[..|ss|] == ss;
    }

    /** `visitFunction`: bind it, check its body in a frame of its own, drop the frame. */
    method VisitFunction(f: Item)
      requires f.Function? && |st.frames| > 0 && ItemNamesAvoid(f, RESERVED, true)
      modifies this, st
      ensures st.frames == CheckItem(old(st.frames), f).frames
      ensures nErrors == old(nErrors) + CheckItem(old(st.frames), f).errors
    {
      var params := ParamList(f.params);
      var returnType := if f.returnType.Some? && f.returnType.value != "" then f.returnType.value else ST.VOID;
      st.AddFunction(f.name, params, returnType);
      st.BeginScope(f.name);
      DeclareParams(params, f.params);
      assert st.frames == BodyFrames(old(st.frames), f.name, f.params, f.returnType);
      VisitBlock(f.body);
      st.EndScope();
    }

    /** The `[name, type, name, type, ...]` list `visitFunction` builds from the parameters. */
    method ParamList(ps: seq<Param>) returns (params: seq<string>)
      ensures params == Flatten(ps)
    {
      params := [];
      for k := 0 to |ps|
        invariant params == Flatten(ps[..k])
      {
        assert ps[..k + 1][..k] == ps[..k];
        params := params + [ps[k].name, ps[k].typeSpec];
      }
      assert ps[..|ps|] == ps;
    }

    /** The parameter loop of `visitFunction`: each `[name, type]` pair bound as a variable. */
    method DeclareParams(params: seq<string>, ghost ps: seq<Param>)
      requires params == Flatten(ps) && |st.frames| > 0
      requires forall p | p in ps :: p.name !in RESERVED
      modifies st
      ensures st.frames == ST.BindAll(old(st.frames), ParamDecls(ps))
    {
      ghost var fs0 := st.frames;
      ghost var decls := ParamDecls(ps);
      var k := 0;
      while 2 * k < |params|
        invariant 0 <= k <= |ps|
        invariant st.frames == ST.BindAll(fs0, decls[..k])
      {
        ParamBindStep(fs0, ps, k);
        assert ps[k] in ps;
        st.AddVar(params[2 * k], Some(params[2 * k + 1]));
        k := k + 1;
      }
      assert decls[..|ps|] == decls;
    }

    /** `accept` on a top-level item. */
    method VisitItem(it: Item)
      requires |st.frames| > 0 && ItemNamesAvoid(it, RESERVED, true)
      modifies this, st
      ensures st.frames == CheckItem(old(st.frames), it).frames
      ensures nErrors == old(nErrors) + CheckItem(old(st.frames), it).errors
    {
      match it
      case DeclItem(d) => VisitDecl(d);
      case Function(_, _, _, _, _) => VisitFunction(it);
    }

    /** `visitProgram`: the items in order. */
    method VisitProgram(p: Program)
      requires |st.frames| > 0 && ProgramNamesAvoid(p, RESERVED, true)
      modifies this, st
      ensures st.frames == CheckProgram(old(st.frames), p.items).frames
      ensures nErrors == old(nErrors) + CheckProgram(old(st.frames), p.items).errors
    {
      ghost var fs0 := st.frames;
      var items := p.items;
      var i := 0;
      while i < |items|
        invariant 0 <= i <= |items|
        invariant st.frames == CheckProgram(fs0, items[..i]).frames
        invariant nErrors == old(nErrors) + CheckProgram(fs0, items[..i]).errors
      {
        assert items[i] in items;
        CheckProgramStep(fs0, items, i);
        VisitItem(items[i]);
        i := i + 1;
      }
      assert items[..|items|] == items;
    }
  }
}
