/**
 * Properties of the code the generator emits (AssemblyVisitor.py). Every
 * label a statement defines was drawn while generating that statement, and
 * is defined at most once. An `if`'s `fim_if` label and a `while`'s two
 * labels are defined exactly once. An `if`'s `else` label is defined once
 * when there is an else branch and not at all when there is none.
 */
module AssemblyFacts {
  import opened Optional
  import opened Ast
  import AS = AssemblyST
  import opened Numerals
  import opened Assembly

  // ------------------------------------------------------------ label definitions

  /** An instruction line; the lines that are not indented define labels. */
  predicate Indented(line: string)
  {
    |line| > 0 && line[0] == ' '
  }

  predicate AllIndented(lines: seq<string>)
  {
    forall i | 0 <= i < |lines| :: Indented(lines[i])
  }

  /** The label definitions among `lines`, each counted as often as it occurs. */
  function Defs(lines: seq<string>): multiset<string>
  {
    if lines == [] then multiset{}
    else
      var last := lines[|lines| - 1];
      Defs(lines[..|lines| - 1]) + (if Indented(last) then multiset{} else multiset{last})
  }

  lemma {:induction false} DefsAppend(a: seq<string>, b: seq<string>)
    ensures Defs(a + b) == Defs(a) + Defs(b)
    decreases |b|
  {
    if b != [] {
      var c := b[..|b| - 1];
      assert (a + b)[..|a + b| - 1] == a + c;
      assert (a + b)[|a + b| - 1] == b[|b| - 1];
      DefsAppend(a, c);
    } else {
      assert a + b == a;
    }
  }

  lemma {:induction false} DefsIndented(lines: seq<string>)
    requires AllIndented(lines)
    ensures Defs(lines) == multiset{}
    decreases |lines|
  {
    if lines != [] {
      DefsIndented(lines[..|lines| - 1]);
    }
  }

  lemma IndentedAppend(a: seq<string>, b: seq<string>)
    requires AllIndented(a) && AllIndented(b)
    ensures AllIndented(a + b)
  {
    forall i | 0 <= i < |a + b|
      ensures Indented((a + b)[i])
    {
      if i >= |a| {
        assert (a + b)[i] == b[i - |a|];
      }
    }
  }

  lemma PiecesIndented(fs: seq<AS.Frame>, op: string, v: LitValue, n: string)
    requires ExprReady(fs)
    ensures AllIndented(OpCode(op)) && AllIndented(UnaryCode(op))
    ensures AllIndented(LitCode(v)) && AllIndented(IdentCode(fs, n))
  {
  }

  /** The code of an expression holds instructions only. */
  lemma {:induction false} ExprCodeIndented(fs: seq<AS.Frame>, e: Expr)
    requires ExprReady(fs)
    ensures AllIndented(ExprCode(fs, e))
    decreases e
  {
    match e
    case BinaryExpr(op, left, right) =>
      ExprCodeIndented(fs, left);
      ExprCodeIndented(AS.AddSp(fs, -4), right);
      BinaryIndented(fs, op, left, right);
    case UnaryExpr(op, x) =>
      ExprCodeIndented(fs, x);
      PiecesIndented(fs, op, IntVal(0), "");
      IndentedAppend(ExprCode(fs, x), UnaryCode(op));
    case Literal(v) =>
      PiecesIndented(fs, "", v, "");
    case Identifier(n) =>
      PiecesIndented(fs, "", IntVal(0), n);
    case FunctionCall(name, args) =>
      ArgsCodeIndented(AS.AddSp(fs, -8), args);
      CallIndented(fs, name, args);
  }

  lemma BinaryIndented(fs: seq<AS.Frame>, op: string, left: Expr, right: Expr)
    requires ExprReady(fs)
    requires AllIndented(ExprCode(fs, left)) && AllIndented(ExprCode(AS.AddSp(fs, -4), right))
    ensures AllIndented(ExprCode(fs, BinaryExpr(op, left, right)))
  {
    BinaryCodeShape(fs, op, left, right);
    PiecesIndented(fs, op, IntVal(0), "");
    var push: seq<string> := ["    addi $sp, $sp, -4", "    sw $v0, 0($sp)"];
    var pop: seq<string> := ["    lw $t0, 0($sp)", "    addi $sp, $sp, 4"];
    assert AllIndented(push) && AllIndented(pop);
    IndentedAppend(pop, OpCode(op));
    IndentedAppend(ExprCode(AS.AddSp(fs, -4), right), pop + OpCode(op));
    IndentedAppend(ExprCode(fs, left), push);
    IndentedAppend(ExprCode(fs, left) + push, ExprCode(AS.AddSp(fs, -4), right) + (pop + OpCode(op)));
  }

  lemma CallIndented(fs: seq<AS.Frame>, name: string, args: seq<Expr>)
    requires ExprReady(fs)
    requires AllIndented(ArgsCode(AS.AddSp(fs, -8), args))
    ensures AllIndented(ExprCode(fs, FunctionCall(name, args)))
  {
    CallCodeShape(fs, name, args);
    var save: seq<string> := ["    addi $sp, $sp, -8", "    sw $ra, 0($sp)", "    sw $fp, 4($sp)"];
    var restore: seq<string> := ["    jal " + name, "    lw $fp, 4($sp)", "    lw $ra, 0($sp)", "    addi $sp, $sp, 8"];
    assert AllIndented(save) && AllIndented(restore);
    IndentedAppend(save, ArgsCode(AS.AddSp(fs, -8), args));
    IndentedAppend(save + ArgsCode(AS.AddSp(fs, -8), args), restore);
  }

  lemma {:induction false} ArgsCodeIndented(fs: seq<AS.Frame>, args: seq<Expr>)
    requires ExprReady(fs)
    ensures AllIndented(ArgsCode(fs, args))
    decreases args
  {
    if args != [] {
      var k := |args| - 1;
      AddSpReady(fs, -4 * k);
      ArgsCodeIndented(fs, args[..k]);
      ExprCodeIndented(AS.AddSp(fs, -4 * k), args[k]);
    }
  }

  // ------------------------------------------------------------ what a visit defines

  /** The label definitions `r` holds beyond `g`, in either list. */
  ghost function NewDefs(g: Gen, r: Gen): multiset<string>
    requires Extends(g, r)
  {
    Defs(r.text[|g.text|..]) + Defs(r.funcs[|g.funcs|..])
  }

  /** The definition lines of a set of labels. */
  ghost function Marks(labels: set<string>): set<string>
  {
    set l | l in labels :: l + ":"
  }

  /** One definition of each label drawn between `g` and `r`. */
  ghost function FreshDefs(g: Gen, r: Gen): multiset<string>
  {
    multiset(Marks(Issued(r.labels) - Issued(g.labels)))
  }

  lemma IssuedGrows(a: Gen, b: Gen)
    requires Extends(a, b)
    ensures Issued(a.labels) <= Issued(b.labels)
  {
    forall x | x in Issued(a.labels)
      ensures x in Issued(b.labels)
    {
      var c, j :| c in a.labels && 0 <= j < a.labels[c] && Label(c, j) == x;
      assert Count(a.labels, c) <= Count(b.labels, c);
    }
  }

  lemma MarksSplit(x: set<string>, y: set<string>)
    requires x !! y
    ensures multiset(Marks(x + y)) == multiset(Marks(x)) + multiset(Marks(y))
  {
    assert Marks(x + y) == Marks(x) + Marks(y);
    forall l | l in Marks(x)
      ensures l !in Marks(y)
    {
      var a :| a in x && l == a + ":";
      MarkInjective(a, y);
    }
  }

  /** A definition line names one label only. */
  lemma MarkInjective(a: string, y: set<string>)
    ensures a + ":" in Marks(y) ==> a in y
  {
    if a + ":" in Marks(y) {
      var b :| b in y && a + ":" == b + ":";
      assert a == (a + ":")[..|a|] && b == (b + ":")[..|b|];
    }
  }

  /** Both counts add up along a run of visits. */
  lemma Chain(a: Gen, b: Gen, c: Gen)
    requires Extends(a, b) && Extends(b, c)
    ensures Extends(a, c)
    ensures NewDefs(a, c) == NewDefs(a, b) + NewDefs(b, c)
    ensures FreshDefs(a, c) == FreshDefs(a, b) + FreshDefs(b, c)
  {
    ExtendsTrans(a, b, c);
    assert c.text[|a.text|..] == b.text[|a.text|..] + c.text[|b.text|..];
    assert c.funcs[|a.funcs|..] == b.funcs[|a.funcs|..] + c.funcs[|b.funcs|..];
    DefsAppend(b.text[|a.text|..], c.text[|b.text|..]);
    DefsAppend(b.funcs[|a.funcs|..], c.funcs[|b.funcs|..]);
    IssuedGrows(a, b);
    IssuedGrows(b, c);
    var ia, ib, ic := Issued(a.labels), Issued(b.labels), Issued(c.labels);
    assert ic - ia == (ib - ia) + (ic - ib);
    MarksSplit(ib - ia, ic - ib);
  }

  /** Appending lines defines the labels among them and draws none. */
  lemma EmitDefs(g: Gen, toText: bool, lines: seq<string>)
    ensures Extends(g, Emit(g, toText, lines))
    ensures NewDefs(g, Emit(g, toText, lines)) == Defs(lines)
    ensures FreshDefs(g, Emit(g, toText, lines)) == multiset{}
  {
    var r := Emit(g, toText, lines);
    assert r.text[|g.text|..] == (if toText then lines else []);
    assert r.funcs[|g.funcs|..] == (if toText then [] else lines);
    assert Issued(r.labels) - Issued(g.labels) == {};
    assert Marks({}) == {};
  }

  /** Drawing two labels of different bases defines nothing and makes both fresh. */
  lemma TwoLabels(g: Gen, b1: string, b2: string)
    requires b1 != b2
    ensures var (l1, m1) := NewLabel(g.labels, b1);
      var (l2, m2) := NewLabel(m1, b2);
      && Extends(g, g.(labels := m2))
      && NewDefs(g, g.(labels := m2)) == multiset{}
      && FreshDefs(g, g.(labels := m2)) == multiset{l1 + ":", l2 + ":"}
      && l1 in Issued(m2) && l2 in Issued(m2) && l1 + ":" != l2 + ":"
  {
    var (l1, m1) := NewLabel(g.labels, b1);
    var (l2, m2) := NewLabel(m1, b2);
    NewLabelFresh(g.labels, b1);
    NewLabelFresh(m1, b2);
    NewLabelExtends(g, b1);
    NewLabelExtends(g.(labels := m1), b2);
    ExtendsTrans(g, g.(labels := m1), g.(labels := m2));
    assert g.text[|g.text|..] == [] && g.funcs[|g.funcs|..] == [];
    assert Issued(m2) - Issued(g.labels) == {l1, l2};
    if l1 == l2 {
      LabelInjective(b1, Count(g.labels, b1), b2, Count(m1, b2));
    }
    assert Marks({l1, l2}) == {l1 + ":", l2 + ":"};
    assert l1 + ":" != l2 + ":" by {
      assert l1 == (l1 + ":")[..|l1|];
    }
  }

  // ------------------------------------------------------------ statements

  /**
   * Every label definition `r` adds to `g` is of a label drawn in between,
   * and no label is defined twice.
   */
  ghost predicate DefinesFresh(g: Gen, r: Gen)
  {
    Extends(g, r) && NewDefs(g, r) <= FreshDefs(g, r)
  }

  lemma Unchanged(g: Gen)
    ensures DefinesFresh(g, g)
  {
    assert g.text[|g.text|..] == [] && g.funcs[|g.funcs|..] == [];
    assert Issued(g.labels) - Issued(g.labels) == {};
    assert Marks({}) == {};
  }

  lemma DefinesFreshTrans(a: Gen, b: Gen, c: Gen)
    requires DefinesFresh(a, b) && DefinesFresh(b, c)
    ensures DefinesFresh(a, c)
  {
    Chain(a, b, c);
  }

  /** A step that appends instructions only and draws no label. */
  lemma Plain(g: Gen, r: Gen, t: seq<string>, f: seq<string>)
    requires r.text == g.text + t && r.funcs == g.funcs + f
    requires r.labels == g.labels && g.data <= r.data
    requires AllIndented(t) && AllIndented(f)
    ensures DefinesFresh(g, r)
  {
    assert r.text[|g.text|..] == t && r.funcs[|g.funcs|..] == f;
    DefsIndented(t);
    DefsIndented(f);
    assert Issued(r.labels) - Issued(g.labels) == {};
    assert Marks({}) == {};
  }

  /** A label issued before `g1` is not among the definitions a fresh-defining run adds. */
  lemma NotRedefined(g1: Gen, g2: Gen, l: string)
    requires DefinesFresh(g1, g2) && l in Issued(g1.labels)
    ensures NewDefs(g1, g2)[l + ":"] == 0
  {
    MarkInjective(l, Issued(g2.labels) - Issued(g1.labels));
  }

  /**
   * Two labels drawn, then code defining at most the first, a block, and
   * code defining the second: the labels of `while` and of an `if` without
   * `else`. The block cannot define either label again.
   */
  lemma Combine3(g: Gen, g0: Gen, g1: Gen, g2: Gen, r: Gen, la: string, lb: string)
    requires Extends(g, g0) && NewDefs(g, g0) == multiset{} && FreshDefs(g, g0) == multiset{la + ":", lb + ":"}
    requires la in Issued(g0.labels) && lb in Issued(g0.labels) && la + ":" != lb + ":"
    requires Extends(g0, g1) && NewDefs(g0, g1) <= multiset{la + ":"} && FreshDefs(g0, g1) == multiset{}
    requires DefinesFresh(g1, g2)
    requires Extends(g2, r) && NewDefs(g2, r) == multiset{lb + ":"} && FreshDefs(g2, r) == multiset{}
    ensures DefinesFresh(g, r)
    ensures NewDefs(g, r)[la + ":"] == NewDefs(g0, g1)[la + ":"] && NewDefs(g, r)[lb + ":"] == 1
  {
    Chain(g, g0, g1);
    Chain(g, g1, g2);
    Chain(g, g2, r);
    IssuedGrows(g0, g1);
    NotRedefined(g1, g2, la);
    NotRedefined(g1, g2, lb);
    ThreeParts(NewDefs(g, g1), NewDefs(g1, g2), NewDefs(g2, r), FreshDefs(g, g1), FreshDefs(g1, g2), FreshDefs(g2, r),
               la + ":", lb + ":", NewDefs(g0, g1)[la + ":"]);
  }

  /**
   * The counting behind `Combine3` and `Combine5`: a head that draws `a` and
   * `b` and defines at most `a`, a middle that defines `a` at most `k` times
   * and `b` never beyond its fresh labels, a tail that defines `b`.
   */
  lemma ThreeParts(n0: multiset<string>, n1: multiset<string>, n2: multiset<string>,
                   f0: multiset<string>, f1: multiset<string>, f2: multiset<string>, a: string, b: string, k: nat)
    requires a != b && f0 == multiset{a, b} && f2 == multiset{} && n2 == multiset{b}
    requires n0 <= multiset{a} && n1 <= f1 + multiset{a} && n0[a] + n1[a] == k && k <= 1 && n1[b] == 0
    requires n0[a] == 0 || n1[a] == 0
    ensures n0 + n1 + n2 <= f0 + f1 + f2
    ensures (n0 + n1 + n2)[a] == k && (n0 + n1 + n2)[b] == 1
  {
  }

  /** The same with a second block between the two definitions: an `if` with `else`. */
  lemma Combine5(g: Gen, g0: Gen, g1: Gen, g2: Gen, g3: Gen, g4: Gen, r: Gen, la: string, lb: string)
    requires Extends(g, g0) && NewDefs(g, g0) == multiset{} && FreshDefs(g, g0) == multiset{la + ":", lb + ":"}
    requires la in Issued(g0.labels) && lb in Issued(g0.labels) && la + ":" != lb + ":"
    requires Extends(g0, g1) && NewDefs(g0, g1) == multiset{} && FreshDefs(g0, g1) == multiset{}
    requires DefinesFresh(g1, g2)
    requires Extends(g2, g3) && NewDefs(g2, g3) == multiset{la + ":"} && FreshDefs(g2, g3) == multiset{}
    requires DefinesFresh(g3, g4)
    requires Extends(g4, r) && NewDefs(g4, r) == multiset{lb + ":"} && FreshDefs(g4, r) == multiset{}
    ensures DefinesFresh(g, r)
    ensures NewDefs(g, r)[la + ":"] == 1 && NewDefs(g, r)[lb + ":"] == 1
  {
    IssuedGrows(g0, g1);
    BlockMarkBlock(g1, g2, g3, g4, la, lb);
    Chain(g, g0, g1);
    Chain(g, g1, g4);
    Chain(g, g4, r);
    ThreeParts(NewDefs(g, g1), NewDefs(g1, g4), NewDefs(g4, r), FreshDefs(g, g1), FreshDefs(g1, g4), FreshDefs(g4, r),
               la + ":", lb + ":", 1);
  }

  /** A block, the definition of `la`, and a block: neither block defines `la` or `lb`. */
  lemma BlockMarkBlock(g1: Gen, g2: Gen, g3: Gen, g4: Gen, la: string, lb: string)
    requires la in Issued(g1.labels) && lb in Issued(g1.labels) && la + ":" != lb + ":"
    requires DefinesFresh(g1, g2)
    requires Extends(g2, g3) && NewDefs(g2, g3) == multiset{la + ":"} && FreshDefs(g2, g3) == multiset{}
    requires DefinesFresh(g3, g4)
    ensures Extends(g1, g4) && NewDefs(g1, g4) <= FreshDefs(g1, g4) + multiset{la + ":"}
    ensures NewDefs(g1, g4)[la + ":"] == 1 && NewDefs(g1, g4)[lb + ":"] == 0
  {
    IssuedGrows(g1, g2);
    IssuedGrows(g2, g3);
    NotRedefined(g1, g2, la);
    NotRedefined(g1, g2, lb);
    NotRedefined(g3, g4, la);
    NotRedefined(g3, g4, lb);
    Chain(g1, g2, g3);
    Chain(g1, g3, g4);
  }

  lemma {:induction false} StmtDefinesFresh(g: Gen, s: Stmt)
    requires StmtReady(g.frames)
    ensures DefinesFresh(g, GenStmt(g, s))
    decreases s, 1
  {
    match s
    case ExprStmt(e) =>
      ExprCodeIndented(g.frames, e);
      EmitInstructions(g, InText(g.frames), ExprCode(g.frames, e));
    case AssignStmt(n, v) =>
      AssignDefinesFresh(g, n, v);
    case ReturnStmt(v) =>
      ReturnDefinesFresh(g, v);
    case IfStmt(_, _, _) =>
      IfDefinesFresh(g, s);
    case WhileStmt(_, _) =>
      WhileDefinesFresh(g, s);
    case DeclStmt(d) =>
      DeclDefinesFresh(g, d);
    case BlockStmt(b) =>
      BlockDefinesFresh(g, b.statements);
  }

  /** Appending instructions only defines nothing. */
  lemma EmitInstructions(g: Gen, toText: bool, code: seq<string>)
    requires AllIndented(code)
    ensures DefinesFresh(g, Emit(g, toText, code))
  {
    Plain(g, Emit(g, toText, code), if toText then code else [], if toText then [] else code);
  }

  /** `visitReturnStmt` defines no label. */
  lemma ReturnDefinesFresh(g: Gen, v: Option<Expr>)
    requires StmtReady(g.frames)
    ensures DefinesFresh(g, GenStmt(g, ReturnStmt(v)))
  {
    var value := if v.Some? then ExprCode(g.frames, v.value) else [];
    if v.Some? {
      ExprCodeIndented(g.frames, v.value);
    }
    var leave: seq<string> := ["    move $sp, $fp", "    jr $ra"];
    assert AllIndented(leave);
    IndentedAppend(value, leave);
    EmitInstructions(g, InText(g.frames), value + leave);
  }

  /** A value's code, a change of frames, then one store instruction: no label is defined. */
  lemma EmitStoreFresh(g: Gen, toText: bool, code: seq<string>, fs1: seq<AS.Frame>, store: string)
    requires AllIndented(code) && Indented(store)
    ensures DefinesFresh(g, Emit(Emit(g, toText, code).(frames := fs1), toText, [store]))
  {
    var r := Emit(Emit(g, toText, code).(frames := fs1), toText, [store]);
    assert AllIndented([store]);
    IndentedAppend(code, [store]);
    assert g.text + code + [store] == g.text + (code + [store]);
    assert g.funcs + code + [store] == g.funcs + (code + [store]);
    Plain(g, r, if toText then code + [store] else [], if toText then [] else code + [store]);
  }

  lemma AssignDefinesFresh(g: Gen, n: string, v: Expr)
    requires StmtReady(g.frames)
    ensures DefinesFresh(g, GenAssign(g, n, v))
  {
    var fs := g.frames;
    var toText := InText(fs);
    var code := ExprCode(fs, v);
    ExprCodeIndented(fs, v);
    DeclareReady(fs, n, false);
    var fs1 := if AS.Lookup(fs, n).None? then AS.Declare(fs, n, false, WORD) else fs;
    var store :=
      if AS.ScopeOf(fs1, Some(n)) == GLOBAL then "    sw $v0, " + n
      else
        (LocalIsNotFunction(fs1, n);
         "    sw $v0, " + IntToString(AS.Lookup(fs1, n).value.offset) + "($fp)");
    assert GenAssign(g, n, v) == Emit(Emit(g, toText, code).(frames := fs1), toText, [store]);
    EmitStoreFresh(g, toText, code, fs1, store);
  }

  lemma DeclDefinesFresh(g: Gen, d: Decl)
    requires ExprReady(g.frames) && Declarable(g.frames, d.name)
    ensures DefinesFresh(g, GenDecl(g, d))
  {
    var toText := InText(g.frames);
    var code := ExprCode(g.frames, d.value);
    ExprCodeIndented(g.frames, d.value);
    var r := GenDecl(g, d);
    DeclareReady(g.frames, d.name, d.ConstDecl?);
    var fs := AS.Declare(g.frames, d.name, d.ConstDecl?, WORD);
    if d.ConstDecl? || toText {
      var store := "    sw $v0, " + d.name;
      assert AllIndented([store]);
      IndentedAppend(code, [store]);
      if toText {
        Plain(g, r, code + [store], []);
      } else {
        Plain(g, r, [store], code);
      }
    } else {
      var store := "    sw $v0, " + IntToString(AS.Lookup(fs, d.name).value.offset) + "($fp)";
      assert AllIndented([store]);
      IndentedAppend(code, [store]);
      Plain(g, r, [], code + [store]);
    }
  }

  lemma {:induction false} BlockDefinesFresh(g: Gen, ss: seq<Stmt>)
    requires StmtReady(g.frames)
    ensures DefinesFresh(g, GenBlock(g, ss))
    decreases ss
  {
    if ss == [] {
      Unchanged(g);
    } else {
      var h := GenBlock(g, ss[..|ss| - 1]);
      BlockDefinesFresh(g, ss[..|ss| - 1]);
      StmtDefinesFresh(h, ss[|ss| - 1]);
      DefinesFreshTrans(g, h, GenStmt(h, ss[|ss| - 1]));
    }
  }

  /** A label's definition line is not an instruction. */
  lemma LabelMark(base: string, k: nat)
    requires base in BASES
    ensures Defs([Label(base, k) + ":"]) == multiset{Label(base, k) + ":"}
  {
    var l := Label(base, k);
    assert (l + ":")[0] == base[0];
    assert [l + ":"][..0] == [];
  }

  /**
   * `visitIfStmt` draws an `else` and a `fim_if` label; it defines the
   * `else` label only when there is an else branch, and `fim_if` once.
   */
  lemma {:induction false} IfDefinesFresh(g: Gen, s: Stmt)
    requires StmtReady(g.frames) && s.IfStmt?
    ensures DefinesFresh(g, GenIf(g, s))
    ensures var (lElse, m1) := NewLabel(g.labels, "else");
      var lEnd := NewLabel(m1, "fim_if").0;
      && NewDefs(g, GenIf(g, s))[lEnd + ":"] == 1
      && NewDefs(g, GenIf(g, s))[lElse + ":"] == (if s.elseBlock.Some? then 1 else 0)
    decreases s, 0
  {
    var toText := InText(g.frames);
    var (lElse, m1) := NewLabel(g.labels, "else");
    var (lEnd, m2) := NewLabel(m1, "fim_if");
    var g0 := g.(labels := m2);
    TwoLabels(g, "else", "fim_if");
    var beq := "    beq $v0, $zero, " + (if s.elseBlock.Some? then lElse else lEnd);
    var branch := ExprCode(g.frames, s.condition) + [beq];
    ExprCodeIndented(g.frames, s.condition);
    Instructions(g0, toText, branch, ExprCode(g.frames, s.condition), beq);
    var g1 := Emit(g0, toText, branch);
    var g3 := GenBlock(g1, s.thenBlock.statements);
    BlockDefinesFresh(g1, s.thenBlock.statements);
    LabelMark("fim_if", Count(m1, "fim_if"));
    if s.elseBlock.Some? {
      LabelMark("else", Count(g.labels, "else"));
      var jump := ["    j " + lEnd, lElse + ":"];
      JumpThenMark(g3, toText, "    j " + lEnd, lElse + ":");
      var g4 := Emit(g3, toText, jump);
      var g5 := GenBlock(g4, s.elseBlock.value.statements);
      BlockDefinesFresh(g4, s.elseBlock.value.statements);
      var r := Emit(g5, toText, [lEnd + ":"]);
      EmitDefs(g5, toText, [lEnd + ":"]);
      Combine5(g, g0, g1, g3, g4, g5, r, lElse, lEnd);
      assert GenIf(g, s) == r;
    } else {
      var r := Emit(g3, toText, [lEnd + ":"]);
      EmitDefs(g3, toText, [lEnd + ":"]);
      Combine3(g, g0, g1, g3, r, lElse, lEnd);
      assert GenIf(g, s) == r;
    }
  }

  /** Appending an expression's code and one more instruction defines nothing. */
  lemma Instructions(g: Gen, toText: bool, lines: seq<string>, code: seq<string>, last: string)
    requires AllIndented(code) && Indented(last) && lines == code + [last]
    ensures Extends(g, Emit(g, toText, lines))
    ensures NewDefs(g, Emit(g, toText, lines)) == multiset{} && FreshDefs(g, Emit(g, toText, lines)) == multiset{}
  {
    assert AllIndented([last]);
    IndentedAppend(code, [last]);
    DefsIndented(lines);
    EmitDefs(g, toText, lines);
  }

  /** Appending a jump and a label definition defines that label. */
  lemma JumpThenMark(g: Gen, toText: bool, jump: string, mark: string)
    requires Indented(jump) && Defs([mark]) == multiset{mark}
    ensures Extends(g, Emit(g, toText, [jump, mark]))
    ensures NewDefs(g, Emit(g, toText, [jump, mark])) == multiset{mark}
    ensures FreshDefs(g, Emit(g, toText, [jump, mark])) == multiset{}
  {
    assert [jump, mark] == [jump] + [mark];
    DefsAppend([jump], [mark]);
    assert AllIndented([jump]);
    DefsIndented([jump]);
    EmitDefs(g, toText, [jump, mark]);
  }

  /** A label definition, then an expression's code and one more instruction. */
  lemma MarkThenInstructions(g: Gen, toText: bool, lines: seq<string>, mark: string, code: seq<string>, last: string)
    requires Defs([mark]) == multiset{mark} && AllIndented(code) && Indented(last)
    requires lines == [mark] + code + [last]
    ensures Extends(g, Emit(g, toText, lines))
    ensures NewDefs(g, Emit(g, toText, lines)) == multiset{mark} && FreshDefs(g, Emit(g, toText, lines)) == multiset{}
  {
    assert AllIndented([last]);
    IndentedAppend(code, [last]);
    DefsIndented(code + [last]);
    assert lines == [mark] + (code + [last]);
    DefsAppend([mark], code + [last]);
    EmitDefs(g, toText, lines);
  }

  /** `visitWhileStmt` defines its `while` and `fim_while` labels once each. */
  lemma {:induction false} WhileDefinesFresh(g: Gen, s: Stmt)
    requires StmtReady(g.frames) && s.WhileStmt?
    ensures DefinesFresh(g, GenWhile(g, s))
    ensures var (lStart, m1) := NewLabel(g.labels, "while");
      var lEnd := NewLabel(m1, "fim_while").0;
      NewDefs(g, GenWhile(g, s))[lStart + ":"] == 1 && NewDefs(g, GenWhile(g, s))[lEnd + ":"] == 1
    decreases s, 0
  {
    var toText := InText(g.frames);
    var (lStart, m1) := NewLabel(g.labels, "while");
    var (lEnd, m2) := NewLabel(m1, "fim_while");
    var g0 := g.(labels := m2);
    TwoLabels(g, "while", "fim_while");
    ExprCodeIndented(g.frames, s.condition);
    LabelMark("while", Count(g.labels, "while"));
    LabelMark("fim_while", Count(m1, "fim_while"));
    var head := [lStart + ":"] + ExprCode(g.frames, s.condition) + ["    beq $v0, $zero, " + lEnd];
    MarkThenInstructions(g0, toText, head, lStart + ":", ExprCode(g.frames, s.condition), "    beq $v0, $zero, " + lEnd);
    var g1 := Emit(g0, toText, head);
    var g2 := GenBlock(g1, s.body.statements);
    BlockDefinesFresh(g1, s.body.statements);
    JumpThenMark(g2, toText, "    j " + lStart, lEnd + ":");
    var r := Emit(g2, toText, ["    j " + lStart, lEnd + ":"]);
    Combine3(g, g0, g1, g2, r, lStart, lEnd);
    assert GenWhile(g, s) == r;
  }

  // ------------------------------------------------------------ items and programs

  /** The entry label a function item defines; declarations define none. */
  function ItemMarks(it: Item): multiset<string>
  {
    if it.Function? then Defs([it.name + ":"]) else multiset{}
  }

  /** The entry labels of all the function items, in order. */
  function ProgramMarks(items: seq<Item>): multiset<string>
  {
    if items == [] then multiset{} else ProgramMarks(items[..|items| - 1]) + ItemMarks(items[|items| - 1])
  }

  /** Besides the labels drawn in between, `r` defines at most the lines in `extra`. */
  ghost predicate DefinesAtMost(g: Gen, r: Gen, extra: multiset<string>)
  {
    Extends(g, r) && NewDefs(g, r) <= FreshDefs(g, r) + extra
  }

  lemma DefinesAtMostTrans(a: Gen, b: Gen, c: Gen, x: multiset<string>, y: multiset<string>)
    requires DefinesAtMost(a, b, x) && DefinesAtMost(b, c, y)
    ensures DefinesAtMost(a, c, x + y)
  {
    Chain(a, b, c);
  }

  /** Changing only the stack defines and draws nothing. */
  lemma FramesOnly(g: Gen, fs: seq<AS.Frame>)
    ensures DefinesAtMost(g, g.(frames := fs), multiset{})
  {
    Unchanged(g);
  }

  /**
   * `visitFunction` defines the function's name as a label, before its body,
   * and otherwise only labels its body draws, each at most once.
   */
  lemma ItemDefines(g: Gen, it: Item)
    requires ItemReady(g.frames) && ItemSafe(g.frames, it)
    ensures DefinesAtMost(g, GenItem(g, it), ItemMarks(it))
    ensures ItemMarks(it) <= NewDefs(g, GenItem(g, it))
  {
    match it
    case DeclItem(d) =>
      DeclDefinesFresh(g, d);
    case Function(name, ps, _, body, _) =>
      var fs := BodyFrames(g.frames, name, ps);
      var prologue := [name + ":", "    move $fp, $sp", "    addi $sp, $sp, " + IntToString(AS.SP(fs))];
      var g1 := Emit(g.(frames := fs), InText(fs), prologue);
      PrologueDefines(g, fs, name);
      var g2 := GenBlock(g1, body.statements);
      BlockDefinesFresh(g1, body.statements);
      DefinesAtMostTrans(g, g1, g2, ItemMarks(it), multiset{});
      FramesOnly(g2, AS.Pop(g2.frames));
      DefinesAtMostTrans(g, g2, g2.(frames := AS.Pop(g2.frames)), ItemMarks(it), multiset{});
      Chain(g, g1, g2);
      Chain(g, g2, g2.(frames := AS.Pop(g2.frames)));
      assert GenItem(g, it) == g2.(frames := AS.Pop(g2.frames));
  }

  /** The prologue of a function defines its name as a label and nothing else. */
  lemma PrologueDefines(g: Gen, fs: seq<AS.Frame>, name: string)
    requires |fs| > 0
    ensures var prologue := [name + ":", "    move $fp, $sp", "    addi $sp, $sp, " + IntToString(AS.SP(fs))];
      var r := Emit(g.(frames := fs), InText(fs), prologue);
      && Extends(g, r) && NewDefs(g, r) == Defs([name + ":"]) && FreshDefs(g, r) == multiset{}
  {
    var rest := ["    move $fp, $sp", "    addi $sp, $sp, " + IntToString(AS.SP(fs))];
    var prologue := [name + ":", "    move $fp, $sp", "    addi $sp, $sp, " + IntToString(AS.SP(fs))];
    var g0 := g.(frames := fs);
    assert prologue == [name + ":"] + rest;
    assert AllIndented(rest);
    DefsIndented(rest);
    DefsAppend([name + ":"], rest);
    EmitDefs(g0, InText(fs), prologue);
  }

  /**
   * Label uniqueness for a whole program: each label definition in the output
   * is either a control-flow label drawn during the visit, defined at most
   * once, or the entry label of one of the function items.
   */
  lemma {:induction false} ProgramDefines(g: Gen, items: seq<Item>)
    requires ItemReady(g.frames) && GenProgram(g, items).Some?
    ensures DefinesAtMost(g, GenProgram(g, items).value, ProgramMarks(items))
    ensures ProgramMarks(items) <= NewDefs(g, GenProgram(g, items).value)
    decreases |items|
  {
    if items == [] {
      Unchanged(g);
    } else {
      var prefix := items[..|items| - 1];
      var g1 := GenProgram(g, prefix).value;
      ProgramDefines(g, prefix);
      ItemDefines(g1, items[|items| - 1]);
      DefinesAtMostTrans(g, g1, GenItem(g1, items[|items| - 1]), ProgramMarks(prefix), ItemMarks(items[|items| - 1]));
      Chain(g, g1, GenItem(g1, items[|items| - 1]));
    }
  }

  // ------------------------------------------------------------ declarations and prologues

  /**
   * `visitConstDecl` / `visitVarDecl`: the value's code goes to the current
   * list; a constant, and a variable at top level, is recorded in `data` and
   * stored by name into `text`, whatever the current scope; a local variable
   * is stored to the slot `addVar` gave it, which is 4 bytes below the
   * counter when the name is new in the frame and its old slot otherwise.
   */
  lemma DeclLowering(g: Gen, d: Decl)
    requires ExprReady(g.frames) && Declarable(g.frames, d.name)
    ensures var r := GenDecl(g, d);
      var code := ExprCode(g.frames, d.value);
      var top := AS.Top(g.frames);
      var isNew := d.name !in top.binds;
      var slot := if isNew then AS.SP(g.frames) - 4 else top.binds[d.name].offset;
      && AS.SP(r.frames) == (if isNew then AS.SP(g.frames) - 4 else AS.SP(g.frames))
      && AS.Lookup(r.frames, d.name) == Some(if d.ConstDecl? then AS.Constant(WORD, slot) else AS.Variable(WORD, slot))
      && r.labels == g.labels
      && (d.ConstDecl? || InText(g.frames) ==>
            && r.data == g.data + {d.name}
            && r.text == g.text + (if InText(g.frames) then code else []) + ["    sw $v0, " + d.name]
            && r.funcs == g.funcs + (if InText(g.frames) then [] else code))
      && (d.VarDecl? && !InText(g.frames) ==>
            && r.data == g.data && r.text == g.text
            && r.funcs == g.funcs + code + ["    sw $v0, " + IntToString(slot) + "($fp)"])
  {
    DeclareReady(g.frames, d.name, d.ConstDecl?);
  }

  /**
   * `visitAssignStmt` on a target no frame binds: it is first declared as a
   * variable in the current frame, in the slot 4 bytes below the counter,
   * then stored by name at top level and to that slot inside a function.
   */
  lemma AssignUndeclared(g: Gen, n: string, v: Expr)
    requires StmtReady(g.frames) && AS.Lookup(g.frames, n).None?
    ensures var r := GenAssign(g, n, v);
      && r.data == g.data && r.labels == g.labels
      && AS.SP(r.frames) == AS.SP(g.frames) - 4
      && AS.Lookup(r.frames, n) == Some(AS.Variable(WORD, AS.SP(g.frames) - 4))
      && Emitted(g.text, g.funcs, r.text, r.funcs, InText(g.frames),
           ExprCode(g.frames, v) + [if InText(g.frames) then "    sw $v0, " + n
                                    else "    sw $v0, " + IntToString(AS.SP(g.frames) - 4) + "($fp)"])
  {
    UndeclaredTarget(g.frames, n);
  }

  /** Declaring an unbound name: a variable one slot down, found in the current frame. */
  lemma UndeclaredTarget(fs: seq<AS.Frame>, n: string)
    requires StmtReady(fs) && AS.Lookup(fs, n).None?
    ensures var fs1 := AS.Declare(fs, n, false, WORD);
      && StmtReady(fs1)
      && AS.SP(fs1) == AS.SP(fs) - 4
      && AS.Lookup(fs1, n) == Some(AS.Variable(WORD, AS.SP(fs) - 4))
      && AS.ScopeOf(fs1, Some(n)) == AS.Top(fs).tag
  {
    DeclareReady(fs, n, false);
    var fs1 := AS.Declare(fs, n, false, WORD);
    AS.DeclareSlot(AS.Top(fs), n, false, WORD);
    assert n !in AS.Top(fs).binds;
    assert AS.ScopeOf(fs1, Some(n)) == AS.Top(fs).tag by {
      assert AS.Innermost(fs1, n) == Some(|fs1| - 1);
    }
  }

  /**
   * `visitAssignStmt` on a declared target: the stack is left alone, and the
   * value is stored by name when the innermost binding is global and to its
   * slot otherwise.
   */
  lemma AssignDeclared(g: Gen, n: string, v: Expr)
    requires StmtReady(g.frames) && AS.Lookup(g.frames, n).Some?
    ensures var r := GenAssign(g, n, v);
      var b := AS.Lookup(g.frames, n).value;
      && r.data == g.data && r.labels == g.labels && r.frames == g.frames
      && (AS.ScopeOf(g.frames, Some(n)) == GLOBAL ==>
            Emitted(g.text, g.funcs, r.text, r.funcs, InText(g.frames), ExprCode(g.frames, v) + ["    sw $v0, " + n]))
      && (AS.ScopeOf(g.frames, Some(n)) != GLOBAL && !b.Function? ==>
            Emitted(g.text, g.funcs, r.text, r.funcs, InText(g.frames),
              ExprCode(g.frames, v) + ["    sw $v0, " + IntToString(b.offset) + "($fp)"]))
  {
    var fs := g.frames;
    var b := AS.Lookup(fs, n).value;
    if AS.ScopeOf(fs, Some(n)) == GLOBAL {
      EmitThenStore(g, InText(fs), ExprCode(fs, v), fs, "    sw $v0, " + n);
    } else if !b.Function? {
      EmitThenStore(g, InText(fs), ExprCode(fs, v), fs, "    sw $v0, " + IntToString(b.offset) + "($fp)");
    }
  }

  /** Code, then a store with the stack replaced, is the code and the store in one piece. */
  lemma EmitThenStore(g: Gen, toText: bool, code: seq<string>, fs1: seq<AS.Frame>, store: string)
    ensures var r := Emit(Emit(g, toText, code).(frames := fs1), toText, [store]);
      && r.frames == fs1 && r.data == g.data && r.labels == g.labels
      && Emitted(g.text, g.funcs, r.text, r.funcs, toText, code + [store])
  {
    if toText {
      assert g.text + code + [store] == g.text + (code + [store]);
    } else {
      assert g.funcs + code + [store] == g.funcs + (code + [store]);
    }
  }

  /**
   * `visitFunction`: the stack pointer is lowered by 4 bytes per distinct
   * parameter name, the label and the prologue go to `funcs` (to `text`
   * only for a function named `global`) before the body, and afterwards the
   * caller's stack holds the function's binding and nothing else new.
   */
  lemma FunctionPrologue(g: Gen, it: Item)
    requires ItemReady(g.frames) && it.Function?
    ensures var fs := BodyFrames(g.frames, it.name, it.params);
      var r := GenItem(g, it);
      var k := -4 * |AS.Elems(ParamNames(it.params))|;
      var prologue := [it.name + ":", "    move $fp, $sp", "    addi $sp, $sp, " + IntToString(k)];
      && AS.SP(fs) == k
      && (InText(fs) <==> it.name == GLOBAL)
      && (it.name != GLOBAL ==> |r.funcs| >= |g.funcs| + 3 && r.funcs[..|g.funcs| + 3] == g.funcs + prologue)
      && (it.name == GLOBAL ==> |r.text| >= |g.text| + 3 && r.text[..|g.text| + 3] == g.text + prologue)
      && r.frames == AS.BindFunction(g.frames, it.name, ParamPairs(it.params), WORD)
  {
    FunctionFrames(g, it);
    var fs := BodyFrames(g.frames, it.name, it.params);
    var k := -4 * |AS.Elems(ParamNames(it.params))|;
    var prologue := [it.name + ":", "    move $fp, $sp", "    addi $sp, $sp, " + IntToString(k)];
    var g1 := Emit(g.(frames := fs), InText(fs), prologue);
    var g2 := GenBlock(g1, it.body.statements);
    assert GenItem(g, it) == g2.(frames := AS.Pop(g2.frames));
    if it.name != GLOBAL {
      assert g1.funcs == g.funcs + prologue;
      assert g1.funcs <= g2.funcs;
    } else {
      assert g1.text == g.text + prologue;
      assert g1.text <= g2.text;
    }
  }

  /** The stack of a function's body, and what is left of it once the body is done. */
  lemma FunctionFrames(g: Gen, it: Item)
    requires ItemReady(g.frames) && it.Function?
    ensures var fs := BodyFrames(g.frames, it.name, it.params);
      && AS.SP(fs) == -4 * |AS.Elems(ParamNames(it.params))|
      && (InText(fs) <==> it.name == GLOBAL)
      && GenItem(g, it).frames == AS.BindFunction(g.frames, it.name, ParamPairs(it.params), WORD)
  {
    var fs := BodyFrames(g.frames, it.name, it.params);
    AS.DeclareAllSlots(it.name, ParamNames(it.params), WORD);
    var prologue := [it.name + ":", "    move $fp, $sp", "    addi $sp, $sp, " + IntToString(AS.SP(fs))];
    var g1 := Emit(g.(frames := fs), InText(fs), prologue);
    var g2 := GenBlock(g1, it.body.statements);
    assert GenItem(g, it) == g2.(frames := AS.Pop(g2.frames));
    assert g2.frames[..|g.frames|] == fs[..|g.frames|];
  }

  // ------------------------------------------------------------ the listing

  lemma DataLineInjective(a: string, b: string)
    requires DataLine(a) == DataLine(b)
    ensures a == b
  {
    assert |a| == |b|;
    assert a == DataLine(a)[4..4 + |a|];
    assert b == DataLine(b)[4..4 + |b|];
  }

  /**
   * The data section of `get_code`: absent exactly when there are no
   * globals; otherwise `.data` and then one directive per global, each
   * exactly once, their names in increasing order.
   */
  lemma DataSectionOnce(data: set<string>)
    ensures var ds := DataSection(data);
      && (ds == [] <==> data == {})
      && (data != {} ==>
            && ds[0] == ".data" && |ds| == |data| + 1
            && (forall n :: n in data <==> DataLine(n) in ds[1..])
            && (forall i, j | 1 <= i < j < |ds| :: ds[i] != ds[j]))
  {
    var ds := DataSection(data);
    if data != {} {
      var names := Ordering.Listing(data);
      assert ds[1..] == DataLines(names);
      forall n
        ensures n in data <==> DataLine(n) in ds[1..]
      {
        if n in data {
          assert n in Ordering.Elems(names);
          var i :| 0 <= i < |names| && names[i] == n;
          assert ds[1..][i] == DataLine(n);
        }
        if DataLine(n) in ds[1..] {
          var i :| 0 <= i < |ds[1..]| && ds[1..][i] == DataLine(n);
          DataLineInjective(names[i], n);
          assert names[i] in Ordering.Elems(names);
        }
      }
      forall i, j | 1 <= i < j < |ds|
        ensures ds[i] != ds[j]
      {
        assert Ordering.StrLt(names[i - 1], names[j - 1]);
        if ds[i] == ds[j] {
          DataLineInjective(names[i - 1], names[j - 1]);
          Ordering.StrLtIrreflexive(names[i - 1]);
        }
      }
    }
  }
}
