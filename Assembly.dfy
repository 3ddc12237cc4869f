/**
 * The code generator (AssemblyVisitor.py).
 *
 * The visitor appends MIPS instruction strings to two lists, `text` for
 * code emitted while the current scope is named `global` and `funcs`
 * otherwise, collects the names of globals in `data`, draws labels from
 * per-base counters and keeps its stack-pointer bookkeeping in the
 * generator's scope stack.  The functions below say what one visit emits
 * and what it leaves behind; the `Generator` class walks the tree the way
 * the visitor does and is proved to agree with them.
 */
module Assembly {
  import opened Optional
  import opened Ast
  import AS = AssemblyST
  import opened Numerals
  import Mips
  import Ordering
  import Seqs

  /** `getAssemblyType`: every value is one word. */
  const WORD := ".word"
  const GLOBAL := AS.SCOPE_GLOBAL

  /** Names the generator's table cannot hold as bindings. */
  const RESERVED: set<string> := {AS.SCOPE_KEY, AS.SP_KEY}

  // ---------------------------------------------------------------- labels

  /** The label `novo_rotulo` builds from a base and a count. */
  function Label(base: string, k: nat): string
  {
    base + "_" + NatToString(k)
  }

  /** How many labels a base has issued so far. */
  function Count(labels: map<string, nat>, base: string): nat
  {
    if base in labels then labels[base] else 0
  }

  /** `novo_rotulo`: the next label for `base`, and the counters after it. */
  function NewLabel(labels: map<string, nat>, base: string): (string, map<string, nat>)
  {
    var k := Count(labels, base);
    (Label(base, k), labels[base := k + 1])
  }

  /** Every label issued so far: `b_0` up to `b_(n-1)` for each base `b` with count `n`. */
  ghost function Issued(labels: map<string, nat>): set<string>
  {
    set b, j | b in labels && 0 <= j < labels[b] :: Label(b, j)
  }

  /**
   * A label determines its base and its number: the digits after the last
   * underscore are the number, and digits contain no underscore.
   */
  lemma LabelInjective(b1: string, k1: nat, b2: string, k2: nat)
    requires Label(b1, k1) == Label(b2, k2)
    ensures b1 == b2 && k1 == k2
  {
    var d1, d2 := NatToString(k1), NatToString(k2);
    var s := Label(b1, k1);
    assert s == b1 + "_" + d1 && s == b2 + "_" + d2;
    // the underscore before each digit string sits where the other has none
    assert s[|s| - |d1| - 1] == '_' && s[|s| - |d2| - 1] == '_';
    assert forall q | |s| - |d1| <= q < |s| :: s[q] == d1[q - (|s| - |d1|)];
    assert forall q | |s| - |d2| <= q < |s| :: s[q] == d2[q - (|s| - |d2|)];
    assert |d1| == |d2|;
    assert b1 == s[..|b1|] == b2;
    assert d1 == s[|b1| + 1..] == d2;
    NatToStringInjective(k1, k2);
  }

  /**
   * The label `novo_rotulo` hands out is the base's current count appended
   * to it, was never issued before, and is the only new one; no other
   * base's counter moves.
   */
  lemma NewLabelFresh(labels: map<string, nat>, base: string)
    ensures var (l, after) := NewLabel(labels, base);
      && l == Label(base, Count(labels, base))
      && Count(after, base) == Count(labels, base) + 1
      && (forall c | c != base :: Count(after, c) == Count(labels, c))
      && l !in Issued(labels)
      && Issued(after) == Issued(labels) + {l}
  {
    NextLabelUnissued(labels, base);
    IssuedAfterNewLabel(labels, base);
  }

  /** The next label of a base is none of the labels issued so far. */
  lemma NextLabelUnissued(labels: map<string, nat>, base: string)
    ensures Label(base, Count(labels, base)) !in Issued(labels)
  {
    var l := Label(base, Count(labels, base));
    if l in Issued(labels) {
      var b, j :| b in labels && 0 <= j < labels[b] && Label(b, j) == l;
      LabelInjective(b, j, base, Count(labels, base));
      assert false;
    }
  }

  /** Raising the count of `base` issues exactly its next label. */
  lemma IssuedAfterNewLabel(labels: map<string, nat>, base: string)
    ensures var k := Count(labels, base);
      Issued(labels[base := k + 1]) == Issued(labels) + {Label(base, k)}
  {
    IssuedAfterOnlyNext(labels, base);
    IssuedAfterKeepsOld(labels, base);
  }

  lemma IssuedAfterOnlyNext(labels: map<string, nat>, base: string)
    ensures var k := Count(labels, base);
      Issued(labels[base := k + 1]) <= Issued(labels) + {Label(base, k)}
  {
    var k := Count(labels, base);
    var after := labels[base := k + 1];
    forall x | x in Issued(after)
      ensures x in Issued(labels) + {Label(base, k)}
    {
      var b, j :| b in after && 0 <= j < after[b] && Label(b, j) == x;
      if b != base || j < k {
        assert b in labels && j < labels[b];
      }
    }
  }

  lemma IssuedAfterKeepsOld(labels: map<string, nat>, base: string)
    ensures var k := Count(labels, base);
      Issued(labels) + {Label(base, k)} <= Issued(labels[base := k + 1])
  {
    var k := Count(labels, base);
    var after := labels[base := k + 1];
    forall x | x in Issued(labels) + {Label(base, k)}
      ensures x in Issued(after)
    {
      if x != Label(base, k) {
        var b, j :| b in labels && 0 <= j < labels[b] && Label(b, j) == x;
        assert b in after && j < after[b];
      }
    }
  }



  /** The two sibling `if`s: the second one's labels are numbered one higher. */
  lemma SiblingIfLabels()
    ensures var (e0, m1) := NewLabel(map[], "else");
      var (f0, m2) := NewLabel(m1, "fim_if");
      var (e1, m3) := NewLabel(m2, "else");
      var (f1, _) := NewLabel(m3, "fim_if");
      e0 == "else_0" && f0 == "fim_if_0" && e1 == "else_1" && f1 == "fim_if_1"
  {
  }

  // ------------------------------------------------------ instruction pieces

  /** The instructions that combine `$t0` (left) and `$v0` (right) into `$v0`. */
  function OpCode(op: string): seq<string>
  {
    if op == "+" then ["    add $v0, $t0, $v0"]
    else if op == "-" then ["    sub $v0, $t0, $v0"]
    else if op == "*" then ["    mul $v0, $t0, $v0"]
    else if op == "/" then ["    div $t0, $v0", "    mflo $v0"]
    else if op == "%" then ["    div $t0, $v0", "    mfhi $v0"]
    else if op == "<" then ["    slt $v0, $t0, $v0"]
    else if op == ">" then ["    slt $v0, $v0, $t0"]
    else if op == "<=" then ["    slt $v0, $v0, $t0", "    xori $v0, $v0, 1"]
    else if op == ">=" then ["    slt $v0, $t0, $v0", "    xori $v0, $v0, 1"]
    else if op == "==" then ["    sub $v0, $t0, $v0", "    sltiu $v0, $v0, 1"]
    else if op == "!=" then ["    sub $v0, $t0, $v0", "    sltu $v0, $zero, $v0"]
    else []
  }

  function UnaryCode(op: string): seq<string>
  {
    if op == "-" then ["    sub $v0, $zero, $v0"]
    else if op == "!" then ["    xori $v0, $v0, 1"]
    else []
  }

  /** `int(value)` on a float: the integer part, rounded toward zero. */
  function Truncate(r: real): (i: int)
    ensures Mips.Abs(i) as real <= (if r < 0.0 then -r else r) < Mips.Abs(i) as real + 1.0
    ensures i != 0 ==> (i < 0 <==> r < 0.0)
  {
    if r < 0.0 then -((-r).Floor) else r.Floor
  }

  function LitCode(v: LitValue): seq<string>
  {
    match v
    case BoolVal(b) => ["    li $v0, " + (if b then "1" else "0")]
    case IntVal(i) => ["    li $v0, " + IntToString(i)]
    case FloatVal(r) => ["    li $v0, " + IntToString(Truncate(r))]
    case StrVal(_) => ["    li $v0, 0"]
  }

  /** What the operator is meant to compute on two integers, where it is defined. */
  function Intended(op: string, a: int, b: int): Option<int>
  {
    if op == "+" then Some(a + b)
    else if op == "-" then Some(a - b)
    else if op == "*" then Some(a * b)
    else if op == "/" then (if b == 0 then None else Some(Mips.Quot(a, b)))
    else if op == "%" then (if b == 0 then None else Some(Mips.Rem(a, b)))
    else if op == "<" then Some(Mips.Bit(a < b))
    else if op == ">" then Some(Mips.Bit(a > b))
    else if op == "<=" then Some(Mips.Bit(a <= b))
    else if op == ">=" then Some(Mips.Bit(a >= b))
    else if op == "==" then Some(Mips.Bit(a == b))
    else if op == "!=" then Some(Mips.Bit(a != b))
    else None
  }

  /**
   * Arithmetic lowering is right: with the left operand in `$t0` and the
   * right one in `$v0`, the emitted instructions leave the operator's value
   * in `$v0` whenever that value is a word, except for the remainder of the
   * least word by -1.  Outside that range `add` and `sub` trap, `mul` wraps,
   * and `div` has no defined result when the quotient overflows, which is
   * also why that remainder is left out (`RemainderOfLeastWordUndefined`).
   */
  lemma ArithmeticCodeComputes(op: string, a: int, b: int, hi: int, lo: int)
    requires op in {"+", "-", "*", "/", "%"}
    requires Mips.WordRegs(Mips.Regs(a, b, hi, lo))
    requires Intended(op, a, b).Some? && Mips.InWord(Intended(op, a, b).value)
    requires op == "%" ==> !(a == Mips.WORD_MIN && b == -1)
    ensures var q := Mips.Run(OpCode(op), Mips.Regs(a, b, hi, lo));
      q.Some? && q.value.v0 == Intended(op, a, b).value
  {
    var r := Mips.Regs(a, b, hi, lo);
    if op == "/" || op == "%" {
      RunTwo(OpCode(op)[0], OpCode(op)[1], r);
      assert Mips.InWord(Mips.Quot(a, b)) by {
        if op == "%" { QuotInWord(a, b); }
      }
    } else {
      assert OpCode(op)[1..] == [];
    }
  }

  /** The quotient of two words is a word unless the least word is divided by -1. */
  lemma QuotInWord(a: int, b: int)
    requires Mips.InWord(a) && Mips.InWord(b) && b != 0
    requires !(a == Mips.WORD_MIN && b == -1)
    ensures Mips.InWord(Mips.Quot(a, b))
  {
    var x, y := Mips.Abs(a), Mips.Abs(b);
    if y == 1 {
      assert x / y == x;
    } else {
      HalfBound(x, y);
    }
  }

  lemma HalfBound(x: nat, y: nat)
    requires y >= 2
    ensures x / y <= x / 2
  {
    var q := x / y;
    assert x == y * q + x % y;
    assert y * q >= 2 * q;
  }

  /**
   * Comparison lowering is right: the emitted instructions leave 1 in `$v0`
   * when the comparison holds and 0 when it does not.  `==` and `!=`
   * subtract with the trapping `sub`, so they need the difference to be a
   * word.
   */
  lemma ComparisonCodeComputes(op: string, a: int, b: int, hi: int, lo: int)
    requires op in {"<", ">", "<=", ">=", "==", "!="}
    requires Mips.WordRegs(Mips.Regs(a, b, hi, lo))
    requires op == "==" || op == "!=" ==> Mips.InWord(a - b)
    ensures var q := Mips.Run(OpCode(op), Mips.Regs(a, b, hi, lo));
      q.Some? && q.value.v0 == Intended(op, a, b).value
  {
    if op == "<" || op == ">" {
      StrictComparisonComputes(op, a, b, hi, lo);
    } else if op == "<=" || op == ">=" {
      NonStrictComparisonComputes(op, a, b, hi, lo);
    } else {
      EqualityComputes(op, a, b, hi, lo);
    }
  }

  lemma StrictComparisonComputes(op: string, a: int, b: int, hi: int, lo: int)
    requires op in {"<", ">"}
    requires Mips.WordRegs(Mips.Regs(a, b, hi, lo))
    ensures var q := Mips.Run(OpCode(op), Mips.Regs(a, b, hi, lo));
      q.Some? && q.value.v0 == Intended(op, a, b).value
  {
    if op == "<" {
      assert OpCode(op) == ["    slt $v0, $t0, $v0"];
    } else {
      assert OpCode(op) == ["    slt $v0, $v0, $t0"];
    }
    assert OpCode(op)[1..] == [];
  }

  lemma NonStrictComparisonComputes(op: string, a: int, b: int, hi: int, lo: int)
    requires op in {"<=", ">="}
    requires Mips.WordRegs(Mips.Regs(a, b, hi, lo))
    ensures var q := Mips.Run(OpCode(op), Mips.Regs(a, b, hi, lo));
      q.Some? && q.value.v0 == Intended(op, a, b).value
  {
    var r := Mips.Regs(a, b, hi, lo);
    if op == "<=" {
      assert OpCode(op) == ["    slt $v0, $v0, $t0", "    xori $v0, $v0, 1"];
    } else {
      assert OpCode(op) == ["    slt $v0, $t0, $v0", "    xori $v0, $v0, 1"];
    }
    RunTwo(OpCode(op)[0], OpCode(op)[1], r);
  }

  lemma EqualityComputes(op: string, a: int, b: int, hi: int, lo: int)
    requires op in {"==", "!="}
    requires Mips.WordRegs(Mips.Regs(a, b, hi, lo)) && Mips.InWord(a - b)
    ensures var q := Mips.Run(OpCode(op), Mips.Regs(a, b, hi, lo));
      q.Some? && q.value.v0 == Intended(op, a, b).value
  {
    var r := Mips.Regs(a, b, hi, lo);
    if op == "==" {
      assert OpCode(op) == ["    sub $v0, $t0, $v0", "    sltiu $v0, $v0, 1"];
    } else {
      assert OpCode(op) == ["    sub $v0, $t0, $v0", "    sltu $v0, $zero, $v0"];
    }
    RunTwo(OpCode(op)[0], OpCode(op)[1], r);
  }

  /** Running two instructions is running the second on the first's result. */
  lemma RunTwo(c0: string, c1: string, r: Mips.Regs)
    requires Mips.WordRegs(r)
    ensures Mips.Run([c0, c1], r) ==
      match Mips.Exec(c0, r)
      case None => None
      case Some(r1) => Mips.Exec(c1, r1)
  {
    assert [c0, c1][1..] == [c1];
    assert [c1][1..] == [];
    match Mips.Exec(c0, r)
    case None =>
    case Some(r1) =>
      assert Mips.Run([c0, c1], r) == Mips.Run([c1], r1);
  }

  /** An overflowing sum traps instead of wrapping around. */
  lemma AddTrapsOnOverflow(a: int, b: int, hi: int, lo: int)
    requires Mips.WordRegs(Mips.Regs(a, b, hi, lo)) && !Mips.InWord(a + b)
    ensures Mips.Run(OpCode("+"), Mips.Regs(a, b, hi, lo)).None?
  {
  }

  /** `==` on the least word and 1 traps although both operands are words. */
  lemma EqualityTrapsOnOverflow()
    ensures Mips.Run(OpCode("=="), Mips.Regs(Mips.WORD_MIN, 1, 0, 0)).None?
  {
  }

  /**
   * `%` of the least word by -1: the remainder 0 is a word, but the emitted
   * `div` has no defined result, because its quotient does not fit in a word.
   */
  lemma RemainderOfLeastWordUndefined()
    ensures Intended("%", Mips.WORD_MIN, -1) == Some(0)
    ensures Mips.Run(OpCode("%"), Mips.Regs(Mips.WORD_MIN, -1, 0, 0)).None?
  {
  }

  /** Unary lowering: `-` negates (trapping on the least word), `!` flips a boolean, `+` emits nothing. */
  lemma UnaryCodeComputes(op: string, b: int, t0: int, hi: int, lo: int)
    requires Mips.WordRegs(Mips.Regs(t0, b, hi, lo))
    requires op == "-" ==> b != Mips.WORD_MIN
    requires op == "!" ==> b == 0 || b == 1
    ensures var q := Mips.Run(UnaryCode(op), Mips.Regs(t0, b, hi, lo));
      && q.Some?
      && (op == "-" ==> q.value.v0 == -b)
      && (op == "!" ==> q.value.v0 == 1 - b)
      && (op != "-" && op != "!" ==> q.value.v0 == b)
  {
    if op == "-" || op == "!" {
      assert UnaryCode(op)[1..] == [];
    }
  }

  // ------------------------------------------------------------ the scope stack

  /** Only frames tagged `global` hold function bindings: `addFunction` runs at the top level only. */
  predicate FunctionsOnlyGlobal(fs: seq<AS.Frame>)
  {
    forall i | 0 <= i < |fs| && fs[i].tag != GLOBAL :: AS.NoFunctions(fs[i])
  }

  /** What the visit of an expression needs of the stack. */
  predicate ExprReady(fs: seq<AS.Frame>)
  {
    |fs| > 0 && FunctionsOnlyGlobal(fs)
  }

  /** Statements also declare into the current frame, which must hold no function. */
  predicate StmtReady(fs: seq<AS.Frame>)
  {
    ExprReady(fs) && AS.NoFunctions(AS.Top(fs))
  }

  /** Top-level items are visited with the global frame on top. */
  predicate ItemReady(fs: seq<AS.Frame>)
  {
    ExprReady(fs) && AS.Top(fs).tag == GLOBAL
  }

  /** `r` differs from `fs` at most in the current frame, whose tag it keeps. */
  predicate SameBelow(fs: seq<AS.Frame>, r: seq<AS.Frame>)
  {
    |fs| > 0 && |r| == |fs| && r[..|r| - 1] == fs[..|fs| - 1] && AS.Top(r).tag == AS.Top(fs).tag
  }

  /** Moving the counter keeps the stack ready and touches only the current frame's counter. */
  lemma AddSpReady(fs: seq<AS.Frame>, v: int)
    requires ExprReady(fs)
    ensures ExprReady(AS.AddSp(fs, v)) && SameBelow(fs, AS.AddSp(fs, v))
    ensures AS.NoFunctions(AS.Top(fs)) ==> AS.NoFunctions(AS.Top(AS.AddSp(fs, v)))
  {
    AS.AddSpFacts(fs, v, 0, "");
  }

  /** Moving the counter changes no lookup. */
  lemma AddSpLookups(fs: seq<AS.Frame>, v: int)
    requires |fs| > 0
    ensures forall n :: AS.Lookup(AS.AddSp(fs, v), n) == AS.Lookup(fs, n)
    ensures forall n :: AS.ScopeOf(AS.AddSp(fs, v), n) == AS.ScopeOf(fs, n)
  {
    var r := AS.AddSp(fs, v);
    forall n
      ensures AS.Lookup(r, n) == AS.Lookup(fs, n) && AS.Innermost(r, n) == AS.Innermost(fs, n)
    {
      AS.AddSpFacts(fs, v, 0, n);
    }
    forall n: Option<string>
      ensures AS.ScopeOf(r, n) == AS.ScopeOf(fs, n)
    {
      if n.Some? {
        AS.AddSpFacts(fs, v, 0, n.value);
      }
    }
  }

  /** A binding found in a frame not tagged `global` is a variable or a constant. */
  lemma LocalIsNotFunction(fs: seq<AS.Frame>, n: string)
    requires ExprReady(fs) && AS.Lookup(fs, n).Some? && AS.ScopeOf(fs, Some(n)) != GLOBAL
    ensures !AS.Lookup(fs, n).value.Function?
  {
    var i := AS.Innermost(fs, n).value;
    assert fs[i].tag != GLOBAL;
  }

  // ------------------------------------------------------------ expressions

  /** The instructions the visit of an expression appends to the current list. */
  function ExprCode(fs: seq<AS.Frame>, e: Expr): (code: seq<string>)
    requires ExprReady(fs)
    decreases e
  {
    match e
    case BinaryExpr(op, left, right) =>
      AddSpReady(fs, -4);
      ExprCode(fs, left) + ["    addi $sp, $sp, -4", "    sw $v0, 0($sp)"]
      + ExprCode(AS.AddSp(fs, -4), right) + ["    lw $t0, 0($sp)", "    addi $sp, $sp, 4"]
      + OpCode(op)
    case UnaryExpr(op, x) => ExprCode(fs, x) + UnaryCode(op)
    case Literal(v) => LitCode(v)
    case Identifier(n) => IdentCode(fs, n)
    case FunctionCall(name, args) =>
      AddSpReady(fs, -8);
      ["    addi $sp, $sp, -8", "    sw $ra, 0($sp)", "    sw $fp, 4($sp)"]
      + ArgsCode(AS.AddSp(fs, -8), args)
      + ["    jal " + name, "    lw $fp, 4($sp)", "    lw $ra, 0($sp)", "    addi $sp, $sp, 8"]
  }

  /** A name loads from its data label when bound globally, from its frame slot otherwise. */
  function IdentCode(fs: seq<AS.Frame>, n: string): seq<string>
    requires ExprReady(fs)
  {
    match AS.Lookup(fs, n)
    case None => []
    case Some(b) =>
      if AS.ScopeOf(fs, Some(n)) == GLOBAL then ["    lw $v0, " + n]
      else
        LocalIsNotFunction(fs, n);
        ["    lw $v0, " + IntToString(b.offset) + "($fp)"]
  }

  /**
   * The arguments of a call, left to right: each value is stored one slot
   * further down, at the offset the counter reaches after moving by -4.
   */
  function ArgsCode(fs: seq<AS.Frame>, args: seq<Expr>): (code: seq<string>)
    requires ExprReady(fs)
    decreases args
  {
    if args == [] then []
    else
      var k := |args| - 1;
      AddSpReady(fs, -4 * k);
      ArgsCode(fs, args[..k]) + ExprCode(AS.AddSp(fs, -4 * k), args[k])
      + ["    sw $v0, " + IntToString(AS.SP(fs) - 4 * (k + 1)) + "($fp)"]
  }

  // ------------------------------------------------------------ statements

  /** The generator's state: the two code lists, the globals, the label counters and the stack. */
  datatype Gen = Gen(text: seq<string>, funcs: seq<string>, data: set<string>,
                     labels: map<string, nat>, frames: seq<AS.Frame>)

  /** `getList`: code goes to `text` while the current scope is `global`, to `funcs` otherwise. */
  predicate InText(fs: seq<AS.Frame>)
    requires |fs| > 0
  {
    AS.Top(fs).tag == GLOBAL
  }

  /** Appending to the list `getList` chose. */
  function Emit(g: Gen, toText: bool, lines: seq<string>): Gen
  {
    if toText then g.(text := g.text + lines) else g.(funcs := g.funcs + lines)
  }

  /** Code is only ever appended, globals only added, label counters only raised. */
  ghost predicate Extends(g: Gen, r: Gen)
  {
    && g.text <= r.text && g.funcs <= r.funcs && g.data <= r.data
    && (forall b :: Count(g.labels, b) <= Count(r.labels, b))
  }

  lemma ExtendsTrans(a: Gen, b: Gen, c: Gen)
    requires Extends(a, b) && Extends(b, c)
    ensures Extends(a, c)
  {
  }

  lemma EmitExtends(g: Gen, toText: bool, lines: seq<string>)
    ensures Extends(g, Emit(g, toText, lines))
  {
  }

  /** Drawing a label only raises counters. */
  lemma NewLabelExtends(g: Gen, base: string)
    ensures Extends(g, g.(labels := NewLabel(g.labels, base).1))
  {
    NewLabelFresh(g.labels, base);
  }

  /** A name can be declared in the current frame unless a function is bound there under it. */
  predicate Declarable(fs: seq<AS.Frame>, n: string)
    requires |fs| > 0
  {
    n in AS.Top(fs).binds ==> !AS.Top(fs).binds[n].Function?
  }

  /** `addVar` / `addConst` during a visit: only the current frame changes, and it binds the name. */
  lemma DeclareReady(fs: seq<AS.Frame>, n: string, constant: bool)
    requires ExprReady(fs) && Declarable(fs, n)
    ensures var r := AS.Declare(fs, n, constant, WORD);
      && ExprReady(r) && SameBelow(fs, r)
      && (AS.NoFunctions(AS.Top(fs)) ==> AS.NoFunctions(AS.Top(r)))
      && n in AS.Top(r).binds && AS.Lookup(r, n) == Some(AS.Top(r).binds[n])
  {
    var r := AS.Declare(fs, n, constant, WORD);
    assert r[..|r| - 1] == fs[..|fs| - 1];
    forall i | 0 <= i < |r| && r[i].tag != GLOBAL
      ensures AS.NoFunctions(r[i])
    {
      if i == |r| - 1 {
        AS.DeclareSlot(AS.Top(fs), n, constant, WORD);
      } else {
        assert r[i] == fs[i];
      }
    }
    if AS.NoFunctions(AS.Top(fs)) {
      AS.DeclareSlot(AS.Top(fs), n, constant, WORD);
    }
  }

  /** `visitConstDecl` and `visitVarDecl`. */
  function GenDecl(g: Gen, d: Decl): (r: Gen)
    requires ExprReady(g.frames) && Declarable(g.frames, d.name)
    ensures ExprReady(r.frames) && SameBelow(g.frames, r.frames)
    ensures AS.NoFunctions(AS.Top(g.frames)) ==> AS.NoFunctions(AS.Top(r.frames))
    ensures Extends(g, r) && r.labels == g.labels
    ensures InText(g.frames) ==> r.funcs == g.funcs
  {
    var toText := InText(g.frames);
    var g1 := Emit(g, toText, ExprCode(g.frames, d.value));
    DeclareReady(g.frames, d.name, d.ConstDecl?);
    match d
    case ConstDecl(n, _, _) =>
      // the store always goes to `text`, whichever list the value went to
      var fs := AS.Declare(g.frames, n, true, WORD);
      g1.(data := g1.data + {n}, frames := fs, text := g1.text + ["    sw $v0, " + n])
    case VarDecl(n, _, _) =>
      var fs := AS.Declare(g.frames, n, false, WORD);
      if toText then Emit(g1.(data := g1.data + {n}, frames := fs), true, ["    sw $v0, " + n])
      else Emit(g1.(frames := fs), false, ["    sw $v0, " + IntToString(AS.Lookup(fs, n).value.offset) + "($fp)"])
  }

  /** Labels begin with one of the four bases the visitor uses. */
  const BASES: set<string> := {"else", "fim_if", "while", "fim_while"}

  /** The visit of a statement.  Blocks open no scope. */
  function GenStmt(g: Gen, s: Stmt): (r: Gen)
    requires StmtReady(g.frames)
    ensures StmtReady(r.frames) && SameBelow(g.frames, r.frames)
    ensures Extends(g, r)
    ensures InText(g.frames) ==> r.funcs == g.funcs
    decreases s, 1
  {
    var toText := InText(g.frames);
    match s
    case ExprStmt(e) => Emit(g, toText, ExprCode(g.frames, e))
    case AssignStmt(n, v) => GenAssign(g, n, v)
    case ReturnStmt(v) =>
      var value := if v.Some? then ExprCode(g.frames, v.value) else [];
      Emit(g, toText, value + ["    move $sp, $fp", "    jr $ra"])
    case IfStmt(_, _, _) => GenIf(g, s)
    case WhileStmt(_, _) => GenWhile(g, s)
    case DeclStmt(d) => GenDecl(g, d)
    case BlockStmt(b) => GenBlock(g, b.statements)
  }

  /** `visitAssignStmt`: an undeclared target is declared in the current frame first. */
  function GenAssign(g: Gen, n: string, v: Expr): (r: Gen)
    requires StmtReady(g.frames)
    ensures StmtReady(r.frames) && SameBelow(g.frames, r.frames)
    ensures Extends(g, r) && r.labels == g.labels && r.data == g.data
    ensures InText(g.frames) ==> r.funcs == g.funcs
  {
    var fs := g.frames;
    var toText := InText(fs);
    var g1 := Emit(g, toText, ExprCode(fs, v));
    DeclareReady(fs, n, false);
    var fs1 := if AS.Lookup(fs, n).None? then AS.Declare(fs, n, false, WORD) else fs;
    var store :=
      if AS.ScopeOf(fs1, Some(n)) == GLOBAL then "    sw $v0, " + n
      else
        (LocalIsNotFunction(fs1, n);
         "    sw $v0, " + IntToString(AS.Lookup(fs1, n).value.offset) + "($fp)");
    Emit(g1.(frames := fs1), toText, [store])
  }

  /** `visitIfStmt`: both labels are drawn before the condition is visited. */
  function GenIf(g: Gen, s: Stmt): (r: Gen)
    requires StmtReady(g.frames) && s.IfStmt?
    ensures StmtReady(r.frames) && SameBelow(g.frames, r.frames)
    ensures Extends(g, r)
    ensures InText(g.frames) ==> r.funcs == g.funcs
    decreases s, 0
  {
    var toText := InText(g.frames);
    var (lElse, m1) := NewLabel(g.labels, "else");
    var (lEnd, m2) := NewLabel(m1, "fim_if");
    NewLabelExtends(g, "else");
    NewLabelExtends(g.(labels := m1), "fim_if");
    var g0 := g.(labels := m2);
    var g1 := Emit(g0, toText, ExprCode(g.frames, s.condition) + ["    beq $v0, $zero, " + (if s.elseBlock.Some? then lElse else lEnd)]);
    EmitExtends(g0, toText, ExprCode(g.frames, s.condition) + ["    beq $v0, $zero, " + (if s.elseBlock.Some? then lElse else lEnd)]);
    ExtendsTrans(g, g.(labels := m1), g0);
    ExtendsTrans(g, g0, g1);
    var g3 := GenBlock(g1, s.thenBlock.statements);
    ExtendsTrans(g, g1, g3);
    if s.elseBlock.Some? then
      var g4 := Emit(g3, toText, ["    j " + lEnd, lElse + ":"]);
      EmitExtends(g3, toText, ["    j " + lEnd, lElse + ":"]);
      ExtendsTrans(g, g3, g4);
      var g5 := GenBlock(g4, s.elseBlock.value.statements);
      ExtendsTrans(g, g4, g5);
      EmitExtends(g5, toText, [lEnd + ":"]);
      ExtendsTrans(g, g5, Emit(g5, toText, [lEnd + ":"]));
      Emit(g5, toText, [lEnd + ":"])
    else
      EmitExtends(g3, toText, [lEnd + ":"]);
      ExtendsTrans(g, g3, Emit(g3, toText, [lEnd + ":"]));
      Emit(g3, toText, [lEnd + ":"])
  }

  /** `visitWhileStmt`. */
  function GenWhile(g: Gen, s: Stmt): (r: Gen)
    requires StmtReady(g.frames) && s.WhileStmt?
    ensures StmtReady(r.frames) && SameBelow(g.frames, r.frames)
    ensures Extends(g, r)
    ensures InText(g.frames) ==> r.funcs == g.funcs
    decreases s, 0
  {
    var toText := InText(g.frames);
    var (lStart, m1) := NewLabel(g.labels, "while");
    var (lEnd, m2) := NewLabel(m1, "fim_while");
    NewLabelExtends(g, "while");
    NewLabelExtends(g.(labels := m1), "fim_while");
    var g0 := g.(labels := m2);
    ExtendsTrans(g, g.(labels := m1), g0);
    var g1 := Emit(g0, toText, [lStart + ":"] + ExprCode(g.frames, s.condition) + ["    beq $v0, $zero, " + lEnd]);
    EmitExtends(g0, toText, [lStart + ":"] + ExprCode(g.frames, s.condition) + ["    beq $v0, $zero, " + lEnd]);
    ExtendsTrans(g, g0, g1);
    var g2 := GenBlock(g1, s.body.statements);
    ExtendsTrans(g, g1, g2);
    EmitExtends(g2, toText, ["    j " + lStart, lEnd + ":"]);
    ExtendsTrans(g, g2, Emit(g2, toText, ["    j " + lStart, lEnd + ":"]));
    Emit(g2, toText, ["    j " + lStart, lEnd + ":"])
  }

  /** `visitBlock`: the statements in order. */
  function GenBlock(g: Gen, ss: seq<Stmt>): (r: Gen)
    requires StmtReady(g.frames)
    ensures StmtReady(r.frames) && SameBelow(g.frames, r.frames)
    ensures Extends(g, r)
    ensures InText(g.frames) ==> r.funcs == g.funcs
    decreases ss
  {
    if ss == [] then g
    else GenStmt(GenBlock(g, ss[..|ss| - 1]), ss[|ss| - 1])
  }

  // ------------------------------------------------------------ items

  /** `[name, ".word", ...]`: the parameter list `visitFunction` records with the function. */
  function ParamPairs(ps: seq<Param>): (r: seq<string>)
    ensures |r| == 2 * |ps|
    ensures forall k | 0 <= k < |ps| :: r[2 * k] == ps[k].name && r[2 * k + 1] == WORD
  {
    if ps == [] then [] else ParamPairs(ps[..|ps| - 1]) + [ps[|ps| - 1].name, WORD]
  }

  /** The stack on which a function's body is generated: its binding, then its own frame holding the parameters. */
  function BodyFrames(fs: seq<AS.Frame>, name: string, ps: seq<Param>): (r: seq<AS.Frame>)
    requires ItemReady(fs)
    ensures StmtReady(r) && |r| == |fs| + 1
    ensures r[..|fs|] == AS.BindFunction(fs, name, ParamPairs(ps), WORD)
    ensures AS.Top(r) == AS.DeclareAllIn(AS.Frame(name, 0, map[]), ParamNames(ps), WORD)
  {
    var fs1 := AS.BindFunction(fs, name, ParamPairs(ps), WORD);
    var r := AS.DeclareAll(fs1 + [AS.Frame(name, 0, map[])], ParamNames(ps), WORD);
    assert r[..|fs|] == fs1;
    assert fs1[..|fs| - 1] == fs[..|fs| - 1];
    assert forall i | 0 <= i < |fs| - 1 :: r[i] == fs[i];
    r
  }

  /** The generator would raise KeyError: a global declaration over a function of the same name. */
  predicate ItemSafe(fs: seq<AS.Frame>, it: Item)
    requires |fs| > 0
  {
    it.DeclItem? ==> Declarable(fs, it.decl.name)
  }

  /** The visit of a top-level item. */
  function GenItem(g: Gen, it: Item): (r: Gen)
    requires ItemReady(g.frames) && ItemSafe(g.frames, it)
    ensures ItemReady(r.frames) && |r.frames| == |g.frames|
    ensures r.frames[..|r.frames| - 1] == g.frames[..|g.frames| - 1]
    ensures Extends(g, r)
  {
    match it
    case DeclItem(d) => GenDecl(g, d)
    case Function(name, ps, _, body, _) =>
      var fs := BodyFrames(g.frames, name, ps);
      var prologue := [name + ":", "    move $fp, $sp", "    addi $sp, $sp, " + IntToString(AS.SP(fs))];
      var g1 := Emit(g.(frames := fs), InText(fs), prologue);
      var g2 := GenBlock(g1, body.statements);
      assert g2.frames[..|g.frames|] == g1.frames[..|g.frames|];
      g2.(frames := AS.Pop(g2.frames))
  }

  /** `visitProgram`: the items in order; `None` where the visitor raises. */
  function GenProgram(g: Gen, items: seq<Item>): (r: Option<Gen>)
    requires ItemReady(g.frames)
    ensures r.Some? ==> ItemReady(r.value.frames) && |r.value.frames| == |g.frames| && Extends(g, r.value)
  {
    if items == [] then Some(g)
    else match GenProgram(g, items[..|items| - 1])
      case None => None
      case Some(g1) =>
        if ItemSafe(g1.frames, items[|items| - 1]) then
          var r := GenItem(g1, items[|items| - 1]);
          ExtendsTrans(g, g1, r);
          Some(r)
        else None
  }

  lemma BinaryCodeShape(fs: seq<AS.Frame>, op: string, left: Expr, right: Expr)
    requires ExprReady(fs)
    ensures ExprReady(AS.AddSp(fs, -4))
    ensures ExprCode(fs, BinaryExpr(op, left, right)) ==
      ExprCode(fs, left) + ["    addi $sp, $sp, -4", "    sw $v0, 0($sp)"]
      + (ExprCode(AS.AddSp(fs, -4), right) + (["    lw $t0, 0($sp)", "    addi $sp, $sp, 4"] + OpCode(op)))
  {
    AddSpReady(fs, -4);
    var push := ["    addi $sp, $sp, -4", "    sw $v0, 0($sp)"];
    var pop := ["    lw $t0, 0($sp)", "    addi $sp, $sp, 4"];
    var l, r := ExprCode(fs, left), ExprCode(AS.AddSp(fs, -4), right);
    assert ExprCode(fs, BinaryExpr(op, left, right)) == l + push + r + pop + OpCode(op);
    Seqs.Regroup(l + push, r, pop, OpCode(op));
  }

  lemma CallCodeShape(fs: seq<AS.Frame>, name: string, args: seq<Expr>)
    requires ExprReady(fs)
    ensures ExprReady(AS.AddSp(fs, -8)) && InText(AS.AddSp(fs, -8)) == InText(fs)
    ensures ExprCode(fs, FunctionCall(name, args)) ==
      ["    addi $sp, $sp, -8", "    sw $ra, 0($sp)", "    sw $fp, 4($sp)"]
      + ArgsCode(AS.AddSp(fs, -8), args)
      + ["    jal " + name, "    lw $fp, 4($sp)", "    lw $ra, 0($sp)", "    addi $sp, $sp, 8"]
  {
    AddSpReady(fs, -8);
  }

  /** The three appends of `visitFunctionCall` together emit the call's code. */
  lemma CallEmitted(fs: seq<AS.Frame>, name: string, args: seq<Expr>,
                    t0: seq<string>, f0: seq<string>, t1: seq<string>, f1: seq<string>,
                    t2: seq<string>, f2: seq<string>, t3: seq<string>, f3: seq<string>, toText: bool)
    requires ExprReady(fs)
    requires Emitted(t0, f0, t1, f1, toText, ["    addi $sp, $sp, -8", "    sw $ra, 0($sp)", "    sw $fp, 4($sp)"])
    requires Emitted(t1, f1, t2, f2, toText, ArgsCode(AS.AddSp(fs, -8), args))
    requires Emitted(t2, f2, t3, f3, toText, ["    jal " + name, "    lw $fp, 4($sp)", "    lw $ra, 0($sp)", "    addi $sp, $sp, 8"])
    ensures Emitted(t0, f0, t3, f3, toText, ExprCode(fs, FunctionCall(name, args)))
  {
    CallCodeShape(fs, name, args);
    EmittedThree(t0, f0, t1, f1, t2, f2, t3, f3, toText,
      ["    addi $sp, $sp, -8", "    sw $ra, 0($sp)", "    sw $fp, 4($sp)"],
      ArgsCode(AS.AddSp(fs, -8), args),
      ["    jal " + name, "    lw $fp, 4($sp)", "    lw $ra, 0($sp)", "    addi $sp, $sp, 8"]);
  }

  /**
   * The frames of `visitFunctionCall`: eight bytes down, ready for the
   * arguments, and after `n` of them back by the difference and up by 8.
   */
  lemma CallFrames(fs: seq<AS.Frame>, n: nat)
    requires ExprReady(fs)
    ensures ExprReady(AS.AddSp(fs, -8)) && InText(AS.AddSp(fs, -8)) == InText(fs)
    ensures var pushed := AS.AddSp(AS.AddSp(fs, -8), -4 * n);
      AS.AddSp(AS.AddSp(pushed, AS.SP(AS.AddSp(fs, -8)) - AS.SP(pushed)), 8) == fs
  {
    AddSpReady(fs, -8);
    AS.AddSpFacts(fs, -8, -4 * n, "");
    AS.AddSpFacts(AS.AddSp(fs, -8), -4 * n, 4 * n, "");
    AS.AddSpFacts(AS.AddSp(fs, -8), 0, 0, "");
    AS.AddSpFacts(fs, -8, 8, "");
    AS.AddSpFacts(fs, 0, 0, "");
  }

  /** `ArgsCode` of a non-empty list: the others, then the last argument and its store. */
  lemma ArgsCodeLast(fs: seq<AS.Frame>, p: seq<Expr>)
    requires ExprReady(fs) && |p| > 0
    ensures var k := |p| - 1;
      && ExprReady(AS.AddSp(fs, -4 * k))
      && ArgsCode(fs, p) == ArgsCode(fs, p[..k])
           + (ExprCode(AS.AddSp(fs, -4 * k), p[k]) + ["    sw $v0, " + IntToString(AS.SP(fs) - 4 * (k + 1)) + "($fp)"])
  {
    AddSpReady(fs, -4 * (|p| - 1));
  }

  /** One turn of the argument loop: the next argument's code, then its store one slot down. */
  lemma ArgStep(fs: seq<AS.Frame>, args: seq<Expr>, i: nat)
    requires ExprReady(fs) && i < |args|
    ensures ExprReady(AS.AddSp(fs, -4 * i)) && InText(AS.AddSp(fs, -4 * i)) == InText(fs)
    ensures ArgsCode(fs, args[..i + 1]) == ArgsCode(fs, args[..i])
      + (ExprCode(AS.AddSp(fs, -4 * i), args[i]) + ["    sw $v0, " + IntToString(AS.SP(fs) - 4 * (i + 1)) + "($fp)"])
  {
    var p := args[..i + 1];
    ArgsCodeLast(fs, p);
    assert |p| - 1 == i && p[..i] == args[..i] && p[i] == args[i];
    AS.AddSpFacts(fs, -4 * i, 0, "");
  }

  /** Before the i-th argument the frames are still ready for an expression, in the same list. */
  lemma ArgReady(fs: seq<AS.Frame>, i: nat)
    requires ExprReady(fs)
    ensures ExprReady(AS.AddSp(fs, -4 * i)) && InText(AS.AddSp(fs, -4 * i)) == InText(fs)
  {
    AddSpReady(fs, -4 * i);
    AS.AddSpFacts(fs, -4 * i, 0, "");
  }

  /** The i-th turn of the argument loop extends the arguments' code by one argument. */
  lemma ArgLoopStep(fs: seq<AS.Frame>, args: seq<Expr>, i: nat,
                    t0: seq<string>, f0: seq<string>, t1: seq<string>, f1: seq<string>,
                    t2: seq<string>, f2: seq<string>, toText: bool)
    requires ExprReady(fs) && i < |args|
    requires Emitted(t0, f0, t1, f1, toText, ArgsCode(fs, args[..i]))
    requires Emitted(t1, f1, t2, f2, toText, ExprCode(AS.AddSp(fs, -4 * i), args[i])
      + ["    sw $v0, " + IntToString(AS.SP(AS.AddSp(fs, -4 * i)) - 4) + "($fp)"])
    ensures Emitted(t0, f0, t2, f2, toText, ArgsCode(fs, args[..i + 1]))
    ensures AS.AddSp(AS.AddSp(fs, -4 * i), -4) == AS.AddSp(fs, -4 * (i + 1))
  {
    ArgStep(fs, args, i);
    ArgFrames(fs, i);
    EmittedTwice(t0, f0, t1, f1, t2, f2, toText, ArgsCode(fs, args[..i]),
      ExprCode(AS.AddSp(fs, -4 * i), args[i]) + ["    sw $v0, " + IntToString(AS.SP(fs) - 4 * (i + 1)) + "($fp)"]);
  }

  lemma SpAfter(fs: seq<AS.Frame>, v: int)
    requires |fs| > 0
    ensures AS.SP(AS.AddSp(fs, v)) == AS.SP(fs) + v
  {
  }

  /** The counter after the i-th argument's store. */
  lemma ArgFrames(fs: seq<AS.Frame>, i: nat)
    requires ExprReady(fs)
    ensures AS.AddSp(AS.AddSp(fs, -4 * i), -4) == AS.AddSp(fs, -4 * (i + 1))
    ensures AS.SP(AS.AddSp(fs, -4 * i)) == AS.SP(fs) - 4 * i
  {
    AS.AddSpFacts(fs, -4 * i, -4, "");
  }

  /** Two appends to the same list are one append of both. */
  lemma EmitTwice(g: Gen, toText: bool, a: seq<string>, b: seq<string>)
    ensures Emit(Emit(g, toText, a), toText, b) == Emit(g, toText, a + b)
  {
    if toText {
      assert g.text + a + b == g.text + (a + b);
    } else {
      assert g.funcs + a + b == g.funcs + (a + b);
    }
  }

  /** `code` was appended to the list `toText` selects, and the other list is unchanged. */
  predicate Emitted(t0: seq<string>, f0: seq<string>, t1: seq<string>, f1: seq<string>, toText: bool, code: seq<string>)
  {
    if toText then t1 == t0 + code && f1 == f0 else f1 == f0 + code && t1 == t0
  }

  lemma EmittedTwice(t0: seq<string>, f0: seq<string>, t1: seq<string>, f1: seq<string>,
                     t2: seq<string>, f2: seq<string>, toText: bool, a: seq<string>, b: seq<string>)
    requires Emitted(t0, f0, t1, f1, toText, a) && Emitted(t1, f1, t2, f2, toText, b)
    ensures Emitted(t0, f0, t2, f2, toText, a + b)
  {
    if toText {
      assert t0 + a + b == t0 + (a + b);
    } else {
      assert f0 + a + b == f0 + (a + b);
    }
  }

  lemma ThreeLines(a: string, b: string, c: string)
    ensures [a, b] + [c] == [a, b, c]
  {
  }

  lemma EmittedThree(t0: seq<string>, f0: seq<string>, t1: seq<string>, f1: seq<string>,
                     t2: seq<string>, f2: seq<string>, t3: seq<string>, f3: seq<string>,
                     toText: bool, a: seq<string>, b: seq<string>, c: seq<string>)
    requires Emitted(t0, f0, t1, f1, toText, a) && Emitted(t1, f1, t2, f2, toText, b)
    requires Emitted(t2, f2, t3, f3, toText, c)
    ensures Emitted(t0, f0, t3, f3, toText, a + b + c)
  {
    EmittedTwice(t0, f0, t1, f1, t2, f2, toText, a, b);
    EmittedTwice(t0, f0, t2, f2, t3, f3, toText, a + b, c);
  }

  lemma EmittedIsEmit(g: Gen, t1: seq<string>, f1: seq<string>, toText: bool, code: seq<string>)
    requires Emitted(g.text, g.funcs, t1, f1, toText, code)
    ensures g.(text := t1, funcs := f1) == Emit(g, toText, code)
  {
  }

  /** The stack `visitFunction` builds, step by step. */
  lemma BodyFramesSteps(fs: seq<AS.Frame>, name: string, ps: seq<Param>)
    requires ItemReady(fs)
    ensures var fs1 := AS.BindFunction(fs, name, ParamPairs(ps), WORD) + [AS.Frame(name, 0, map[])];
      && |fs1| > 0 && AS.NoFunctions(AS.Top(fs1)) && InText(BodyFrames(fs, name, ps)) == InText(fs1)
      && BodyFrames(fs, name, ps) == (if |ParamPairs(ps)| > 0 then AS.DeclareAll(fs1, ParamNames(ps), WORD) else fs1)
  {
    var fs1 := AS.BindFunction(fs, name, ParamPairs(ps), WORD) + [AS.Frame(name, 0, map[])];
    if ps == [] {
      assert ParamNames(ps) == [];
      assert AS.DeclareAll(fs1, [], WORD) == fs1[..|fs1| - 1] + [AS.Top(fs1)];
    }
  }

  /** One more `addVar` in the parameter loop. */
  lemma DeclareAllStep(fs: seq<AS.Frame>, names: seq<string>, j: nat)
    requires |fs| > 0 && AS.NoFunctions(AS.Top(fs)) && j < |names|
    ensures var r := AS.DeclareAll(fs, names[..j], WORD);
      && |r| > 0 && AS.NoFunctions(AS.Top(r))
      && AS.DeclareAll(fs, names[..j + 1], WORD) == AS.Declare(r, names[j], false, WORD)
  {
    Seqs.TakeLast(names, j);
  }

  /** When the parameter loop stops, every parameter is declared. */
  lemma ParamsDone(ps: seq<Param>, j: nat)
    requires j <= |ps| && 2 * j >= |ParamPairs(ps)|
    ensures ParamNames(ps)[..j] == ParamNames(ps)
  {
  }

  /** One more parameter declared by the parameter loop: the pair at `2 * j` of the flattened list. */
  lemma ParamDeclareStep(fs: seq<AS.Frame>, ps: seq<Param>, j: nat)
    requires |fs| > 0 && AS.NoFunctions(AS.Top(fs)) && j < |ps|
    requires forall p | p in ps :: p.name !in RESERVED
    ensures var r := AS.DeclareAll(fs, ParamNames(ps)[..j], WORD);
      && |r| > 0 && AS.NoFunctions(AS.Top(r)) && AS.ValidName(ParamPairs(ps)[2 * j])
      && AS.DeclareAll(fs, ParamNames(ps)[..j + 1], WORD) == AS.Declare(r, ParamPairs(ps)[2 * j], false, ParamPairs(ps)[2 * j + 1])
  {
    DeclareAllStep(fs, ParamNames(ps), j);
    assert ps[j] in ps;
  }

  /** Once an item fails, the whole program fails. */
  lemma {:induction false} GenProgramFails(g: Gen, items: seq<Item>, i: nat)
    requires ItemReady(g.frames) && i <= |items| && GenProgram(g, items[..i]).None?
    ensures GenProgram(g, items).None?
    decreases |items| - i
  {
    if i < |items| {
      assert items[..i + 1][..i] == items[..i];
      GenProgramFails(g, items, i + 1);
    } else {
      assert items[..i] == items;
    }
  }

  // ------------------------------------------------------------ the listing

  /** The data directive of one global. */
  function DataLine(name: string): string
  {
    "    " + name + ": .word 0"
  }

  function DataLines(names: seq<string>): (r: seq<string>)
    ensures |r| == |names| && forall i | 0 <= i < |names| :: r[i] == DataLine(names[i])
  {
    if names == [] then [] else DataLines(names[..|names| - 1]) + [DataLine(names[|names| - 1])]
  }

  /** The program's exit: `end:` followed by the `exit` system call. */
  const EPILOGUE := "\nend:\n    li $v0, 10\n    syscall"

  /** `get_code` before the join: the data section (if any globals), `text`, the jump over the functions, `funcs`, the exit. */
  ghost function CodeLines(data: set<string>, text: seq<string>, funcs: seq<string>): seq<string>
  {
    DataSection(data) + text + ["    j end"] + funcs + [EPILOGUE]
  }

  /** `.data` and one directive per global, in sorted order; nothing when there are no globals. */
  ghost function DataSection(data: set<string>): seq<string>
  {
    if data == {} then [] else [".data"] + DataLines(Ordering.Listing(data))
  }

  /** `"\n".join(lines)`. */
  function Join(lines: seq<string>): string
  {
    if lines == [] then ""
    else if |lines| == 1 then lines[0]
    else lines[0] + "\n" + Join(lines[1..])
  }

  // ------------------------------------------------------------ the visitor

  /** The visitor: its instruction lists, globals, label counters and the scope stack it shares. */
  class Generator {
    var text: seq<string>
    var funcs: seq<string>
    var data: set<string>
    var rotulos: map<string, nat>
    const st: AS.Table

    ghost function State(): Gen
      reads this, st
    {
      Gen(text, funcs, data, rotulos, st.frames)
    }

    /** Opens the global scope; `text` starts with the section directive and the frame pointer set-up. */
    constructor (table: AS.Table)
      modifies table
      ensures st == table
      ensures State() == Gen([".text", "    move $fp, $sp"], [], {}, map[], old(table.frames) + [AS.Frame(GLOBAL, 0, map[])])
    {
      st := table;
      funcs := [];
      text := [".text", "    move $fp, $sp"];
      data := {};
      rotulos := map[];
      new;
      table.BeginScope(GLOBAL);
    }

    /** `novo_rotulo`. */
    method NovoRotulo(base: string) returns (rotulo: string)
      modifies this
      ensures (rotulo, rotulos) == NewLabel(old(rotulos), base)
      ensures text == old(text) && funcs == old(funcs) && data == old(data)
    {
      if base !in rotulos {
        rotulos := rotulos[base := 0];
      }
      rotulo := base + "_" + NatToString(rotulos[base]);
      rotulos := rotulos[base := rotulos[base] + 1];
      assert rotulos == old(rotulos)[base := Count(old(rotulos), base) + 1];
    }

    /** `getList`: whether the current list is `text` (otherwise it is `funcs`). */
    method GetList() returns (toText: bool)
      requires |st.frames| > 0
      ensures toText == InText(st.frames)
    {
      var scope := st.GetScope();
      toText := scope == GLOBAL;
    }

    /** `code.append(...)` on the list `GetList` chose. */
    method Append(toText: bool, lines: seq<string>)
      modifies this
      ensures Emitted(old(text), old(funcs), text, funcs, toText, lines)
      ensures data == old(data) && rotulos == old(rotulos)
    {
      if toText {
        text := text + lines;
      } else {
        funcs := funcs + lines;
      }
    }

    /** `accept` on an expression: its code goes to the current list and the stack is as before. */
    method VisitExpr(e: Expr)
      requires ExprReady(st.frames) && ExprNamesAvoid(e, RESERVED, false)
      modifies this, st
      ensures st.frames == old(st.frames) && data == old(data) && rotulos == old(rotulos)
      ensures Emitted(old(text), old(funcs), text, funcs, InText(old(st.frames)), ExprCode(old(st.frames), e))
      decreases e
    {
      match e
      case BinaryExpr(op, left, right) =>
        VisitBinaryExpr(op, left, right);
      case UnaryExpr(op, x) =>
        ghost var t0, f0 := text, funcs;
        var toText := GetList();
        VisitExpr(x);
        ghost var t1, f1 := text, funcs;
        Append(toText, UnaryCode(op));
        EmittedTwice(t0, f0, t1, f1, text, funcs, toText, ExprCode(st.frames, x), UnaryCode(op));
      case Literal(v) =>
        var toText := GetList();
        Append(toText, LitCode(v));
      case Identifier(name) =>
        VisitIdentifier(name);
      case FunctionCall(name, args) =>
        VisitFunctionCall(name, args);
    }

    /**
     * `visitBinaryExpr`: the left value is kept on the stack while the right
     * one is computed.  Consecutive appends are made as one.
     */
    method VisitBinaryExpr(op: string, left: Expr, right: Expr)
      requires ExprReady(st.frames) && ExprNamesAvoid(BinaryExpr(op, left, right), RESERVED, false)
      modifies this, st
      ensures st.frames == old(st.frames) && data == old(data) && rotulos == old(rotulos)
      ensures Emitted(old(text), old(funcs), text, funcs, InText(old(st.frames)), ExprCode(old(st.frames), BinaryExpr(op, left, right)))
      decreases BinaryExpr(op, left, right), 0
    {
      ghost var t0, f0 := text, funcs;
      ghost var fs := st.frames;
      var toText := GetList();
      AddSpReady(fs, -4);
      AS.AddSpFacts(fs, -4, 4, "");
      var push := ["    addi $sp, $sp, -4", "    sw $v0, 0($sp)"];
      var pop := ["    lw $t0, 0($sp)", "    addi $sp, $sp, 4"] + OpCode(op);
      ghost var a := ExprCode(fs, left);
      ghost var b := ExprCode(AS.AddSp(fs, -4), right);
      BinaryCodeShape(fs, op, left, right);
      VisitExpr(left);
      st.AddSP(-4);
      ghost var t1, f1 := text, funcs;
      Append(toText, push);
      ghost var t2, f2 := text, funcs;
      EmittedTwice(t0, f0, t1, f1, t2, f2, toText, a, push);
      VisitExpr(right);
      st.AddSP(4);
      ghost var t3, f3 := text, funcs;
      Append(toText, pop);
      EmittedTwice(t2, f2, t3, f3, text, funcs, toText, b, pop);
      EmittedTwice(t0, f0, t2, f2, text, funcs, toText, a + push, b + pop);
      assert a + push + (b + pop) == ExprCode(fs, BinaryExpr(op, left, right));
    }

    /** `visitIdentifier`: nothing is emitted for an unbound name. */
    method VisitIdentifier(name: string)
      requires ExprReady(st.frames) && AS.ValidName(name)
      modifies this
      ensures data == old(data) && rotulos == old(rotulos)
      ensures Emitted(old(text), old(funcs), text, funcs, InText(st.frames), ExprCode(st.frames, Identifier(name)))
    {
      var toText := GetList();
      var bind := st.GetBindable(name);
      if bind.Some? {
        var scope := st.GetScope(Some(name));
        if scope == GLOBAL {
          Append(toText, ["    lw $v0, " + name]);
        } else {
          LocalIsNotFunction(st.frames, name);
          Append(toText, ["    lw $v0, " + IntToString(bind.value.offset) + "($fp)"]);
        }
      } else {
        Append(toText, []);
      }
    }

    /** `visitFunctionCall`: save `$ra` and `$fp`, store the arguments, jump, restore. */
    method VisitFunctionCall(name: string, args: seq<Expr>)
      requires ExprReady(st.frames) && forall a | a in args :: ExprNamesAvoid(a, RESERVED, false)
      modifies this, st
      ensures st.frames == old(st.frames) && data == old(data) && rotulos == old(rotulos)
      ensures Emitted(old(text), old(funcs), text, funcs, InText(old(st.frames)), ExprCode(old(st.frames), FunctionCall(name, args)))
      decreases args
    {
      ghost var t0, f0 := text, funcs;
      ghost var fs := st.frames;
      var toText := GetList();
      AddSpReady(fs, -8);
      var oldSP := SaveFrame(toText);
      ghost var t1, f1 := text, funcs;
      PushArgs(toText, args);
      ghost var t2, f2 := text, funcs;
      RestoreFrame(toText, name, oldSP, fs, |args|);
      CallEmitted(fs, name, args, t0, f0, t1, f1, t2, f2, text, funcs, toText);
    }

    /** The start of `visitFunctionCall`: eight bytes for `$ra` and `$fp`, and the counter they leave. */
    method SaveFrame(toText: bool) returns (oldSP: int)
      requires |st.frames| > 0
      modifies this, st
      ensures st.frames == AS.AddSp(old(st.frames), -8) && oldSP == AS.SP(st.frames)
      ensures data == old(data) && rotulos == old(rotulos)
      ensures Emitted(old(text), old(funcs), text, funcs, toText,
        ["    addi $sp, $sp, -8", "    sw $ra, 0($sp)", "    sw $fp, 4($sp)"])
    {
      st.AddSP(-8);
      oldSP := st.GetSP();
      Append(toText, ["    addi $sp, $sp, -8", "    sw $ra, 0($sp)", "    sw $fp, 4($sp)"]);
    }

    /**
     * The end of `visitFunctionCall`: after the `n` arguments the counter goes
     * back to `oldSP` and up by 8, which is where the call started from.
     */
    method RestoreFrame(toText: bool, name: string, oldSP: int, ghost fs: seq<AS.Frame>, ghost n: nat)
      requires ExprReady(fs) && oldSP == AS.SP(AS.AddSp(fs, -8))
      requires st.frames == AS.AddSp(AS.AddSp(fs, -8), -4 * n)
      modifies this, st
      ensures st.frames == fs
      ensures data == old(data) && rotulos == old(rotulos)
      ensures Emitted(old(text), old(funcs), text, funcs, toText,
        ["    jal " + name, "    lw $fp, 4($sp)", "    lw $ra, 0($sp)", "    addi $sp, $sp, 8"])
    {
      CallFrames(fs, n);
      var sp := st.GetSP();
      st.AddSP(oldSP - sp);
      st.AddSP(8);
      Append(toText, ["    jal " + name, "    lw $fp, 4($sp)", "    lw $ra, 0($sp)", "    addi $sp, $sp, 8"]);
    }

    /** The argument loop of `visitFunctionCall`. */
    method PushArgs(toText: bool, args: seq<Expr>)
      requires ExprReady(st.frames) && toText == InText(st.frames)
      requires forall a | a in args :: ExprNamesAvoid(a, RESERVED, false)
      modifies this, st
      ensures st.frames == AS.AddSp(old(st.frames), -4 * |args|)
      ensures data == old(data) && rotulos == old(rotulos)
      ensures Emitted(old(text), old(funcs), text, funcs, toText, ArgsCode(old(st.frames), args))
      decreases args, 1
    {
      ghost var fs0 := st.frames;
      ghost var t0, f0 := text, funcs;
      AS.AddSpFacts(fs0, 0, 0, "");
      var i := 0;
      while i < |args|
        invariant 0 <= i <= |args|
        invariant st.frames == AS.AddSp(fs0, -4 * i)
        invariant data == old(data) && rotulos == old(rotulos)
        invariant Emitted(t0, f0, text, funcs, toText, ArgsCode(fs0, args[..i]))
      {
        ArgReady(fs0, i);
        assert args[i] in args;
        ghost var t1, f1 := text, funcs;
        PushArg(toText, args[i], args);
        ArgLoopStep(fs0, args, i, t0, f0, t1, f1, text, funcs, toText);
        i := i + 1;
      }
      assert args[..|args|] == args;
    }

    /** One turn of the argument loop: the argument's value, then its store in the next slot down. */
    method PushArg(toText: bool, arg: Expr, ghost args: seq<Expr>)
      requires ExprReady(st.frames) && toText == InText(st.frames)
      requires arg in args && ExprNamesAvoid(arg, RESERVED, false)
      modifies this, st
      ensures st.frames == AS.AddSp(old(st.frames), -4)
      ensures data == old(data) && rotulos == old(rotulos)
      ensures Emitted(old(text), old(funcs), text, funcs, toText,
        ExprCode(old(st.frames), arg) + ["    sw $v0, " + IntToString(AS.SP(old(st.frames)) - 4) + "($fp)"])
      decreases args, 0
    {
      ghost var t0, f0 := text, funcs;
      SpAfter(st.frames, -4);
      VisitExpr(arg);
      ghost var t1, f1 := text, funcs;
      st.AddSP(-4);
      var sp := st.GetSP();
      Append(toText, ["    sw $v0, " + IntToString(sp) + "($fp)"]);
      EmittedTwice(t0, f0, t1, f1, text, funcs, toText, ExprCode(old(st.frames), arg), ["    sw $v0, " + IntToString(sp) + "($fp)"]);
    }

    /** `visitConstDecl`: the value goes to the current list, the store always to `text`. */
    method VisitConstDecl(d: Decl)
      requires ExprReady(st.frames) && d.ConstDecl? && Declarable(st.frames, d.name)
      requires DeclNamesAvoid(d, RESERVED, false)
      modifies this, st
      ensures State() == GenDecl(old(State()), d)
    {
      ghost var g0 := State();
      var name := d.name;
      VisitExpr(d.value);
      EmittedIsEmit(g0, text, funcs, InText(g0.frames), ExprCode(g0.frames, d.value));
      data := data + {name};
      DeclareReady(g0.frames, name, true);
      st.AddConst(name, WORD);
      text := text + ["    sw $v0, " + name];
    }

    /** `visitVarDecl`: a global is stored by name and joins `data`, a local is stored to its new slot. */
    method VisitVarDecl(d: Decl)
      requires ExprReady(st.frames) && d.VarDecl? && Declarable(st.frames, d.name)
      requires DeclNamesAvoid(d, RESERVED, false)
      modifies this, st
      ensures State() == GenDecl(old(State()), d)
    {
      ghost var g0 := State();
      var toText := GetList();
      var name := d.name;
      VisitExpr(d.value);
      EmittedIsEmit(g0, text, funcs, toText, ExprCode(g0.frames, d.value));
      DeclareReady(g0.frames, name, false);
      var scope := st.GetScope();
      if scope == GLOBAL {
        data := data + {name};
        st.AddVar(name, WORD);
        Append(toText, ["    sw $v0, " + name]);
      } else {
        st.AddVar(name, WORD);
        var bind := st.GetBindable(name);
        Append(toText, ["    sw $v0, " + IntToString(bind.value.offset) + "($fp)"]);
      }
    }

    /** `accept` on a statement. */
    method VisitStmt(s: Stmt)
      requires StmtReady(st.frames) && StmtNamesAvoid(s, RESERVED, false)
      modifies this, st
      ensures State() == GenStmt(old(State()), s)
      decreases s, 1
    {
      match s
      case ExprStmt(e) =>
        ghost var g0 := State();
        VisitExpr(e);
        EmittedIsEmit(g0, text, funcs, InText(g0.frames), ExprCode(g0.frames, e));
      case AssignStmt(n, v) =>
        VisitAssignStmt(n, v);
      case ReturnStmt(v) =>
        VisitReturnStmt(v);
      case IfStmt(_, _, _) =>
        VisitIfStmt(s);
      case WhileStmt(_, _) =>
        VisitWhileStmt(s);
      case DeclStmt(d) =>
        if d.ConstDecl? {
          VisitConstDecl(d);
        } else {
          VisitVarDecl(d);
        }
      case BlockStmt(b) =>
        VisitBlock(b.statements);
    }

    /** `visitAssignStmt`: an undeclared target is declared in the current frame before the store. */
    method VisitAssignStmt(n: string, v: Expr)
      requires StmtReady(st.frames) && AS.ValidName(n) && ExprNamesAvoid(v, RESERVED, false)
      modifies this, st
      ensures State() == GenAssign(old(State()), n, v)
    {
      ghost var g0 := State();
      var toText := GetList();
      VisitExpr(v);
      EmittedIsEmit(g0, text, funcs, toText, ExprCode(g0.frames, v));
      StoreAssigned(n, v, toText, g0);
    }

    /** The store that ends `visitAssignStmt`, declaring the name first when it is new. */
    method StoreAssigned(n: string, v: Expr, toText: bool, ghost g0: Gen)
      requires StmtReady(g0.frames) && AS.ValidName(n) && toText == InText(g0.frames)
      requires State() == Emit(g0, toText, ExprCode(g0.frames, v))
      modifies this, st
      ensures State() == GenAssign(g0, n, v)
    {
      DeclareReady(g0.frames, n, false);
      var bind := st.GetBindable(n);
      if bind.None? {
        st.AddVar(n, WORD);
        bind := st.GetBindable(n);
      }
      var scope := st.GetScope(Some(n));
      if scope == GLOBAL {
        Append(toText, ["    sw $v0, " + n]);
      } else {
        LocalIsNotFunction(st.frames, n);
        Append(toText, ["    sw $v0, " + IntToString(bind.value.offset) + "($fp)"]);
      }
    }

    /** `visitReturnStmt`. */
    method VisitReturnStmt(v: Option<Expr>)
      requires StmtReady(st.frames) && (v.Some? ==> ExprNamesAvoid(v.value, RESERVED, false))
      modifies this, st
      ensures State() == GenStmt(old(State()), ReturnStmt(v))
    {
      ghost var g0 := State();
      var toText := GetList();
      ghost var value := if v.Some? then ExprCode(g0.frames, v.value) else [];
      if v.Some? {
        VisitExpr(v.value);
      }
      ghost var t1, f1 := text, funcs;
      Append(toText, ["    move $sp, $fp", "    jr $ra"]);
      EmittedTwice(g0.text, g0.funcs, t1, f1, text, funcs, toText, value, ["    move $sp, $fp", "    jr $ra"]);
      EmittedIsEmit(g0, text, funcs, toText, value + ["    move $sp, $fp", "    jr $ra"]);
    }

    /** `visitIfStmt`. */
    method VisitIfStmt(s: Stmt)
      requires StmtReady(st.frames) && s.IfStmt? && StmtNamesAvoid(s, RESERVED, false)
      modifies this, st
      ensures State() == GenIf(old(State()), s)
      decreases s, 0
    {
      ghost var g := State();
      var toText := GetList();
      var rotuloElse := NovoRotulo("else");
      var rotuloFim := NovoRotulo("fim_if");
      ghost var g0 := State();
      var branch := if s.elseBlock.Some? then rotuloElse else rotuloFim;
      VisitExpr(s.condition);
      ghost var t1, f1 := text, funcs;
      Append(toText, ["    beq $v0, $zero, " + branch]);
      EmittedTwice(g0.text, g0.funcs, t1, f1, text, funcs, toText, ExprCode(g.frames, s.condition), ["    beq $v0, $zero, " + branch]);
      EmittedIsEmit(g0, text, funcs, toText, ExprCode(g.frames, s.condition) + ["    beq $v0, $zero, " + branch]);
      VisitBlock(s.thenBlock.statements);
      if s.elseBlock.Some? {
        ghost var g3 := State();
        Append(toText, ["    j " + rotuloFim, rotuloElse + ":"]);
        EmittedIsEmit(g3, text, funcs, toText, ["    j " + rotuloFim, rotuloElse + ":"]);
        VisitBlock(s.elseBlock.value.statements);
      }
      ghost var g5 := State();
      Append(toText, [rotuloFim + ":"]);
      EmittedIsEmit(g5, text, funcs, toText, [rotuloFim + ":"]);
    }

    /** `visitWhileStmt`. */
    method VisitWhileStmt(s: Stmt)
      requires StmtReady(st.frames) && s.WhileStmt? && StmtNamesAvoid(s, RESERVED, false)
      modifies this, st
      ensures State() == GenWhile(old(State()), s)
      decreases s, 0
    {
      ghost var g := State();
      var toText := GetList();
      var rotuloInicial := NovoRotulo("while");
      var rotuloFinal := NovoRotulo("fim_while");
      ghost var g0 := State();
      Append(toText, [rotuloInicial + ":"]);
      ghost var t1, f1 := text, funcs;
      VisitExpr(s.condition);
      ghost var t2, f2 := text, funcs;
      Append(toText, ["    beq $v0, $zero, " + rotuloFinal]);
      EmittedTwice(g0.text, g0.funcs, t1, f1, t2, f2, toText, [rotuloInicial + ":"], ExprCode(g.frames, s.condition));
      EmittedTwice(g0.text, g0.funcs, t2, f2, text, funcs, toText, [rotuloInicial + ":"] + ExprCode(g.frames, s.condition), ["    beq $v0, $zero, " + rotuloFinal]);
      EmittedIsEmit(g0, text, funcs, toText, [rotuloInicial + ":"] + ExprCode(g.frames, s.condition) + ["    beq $v0, $zero, " + rotuloFinal]);
      VisitBlock(s.body.statements);
      ghost var g2 := State();
      Append(toText, ["    j " + rotuloInicial, rotuloFinal + ":"]);
      EmittedIsEmit(g2, text, funcs, toText, ["    j " + rotuloInicial, rotuloFinal + ":"]);
    }

    /** `visitBlock`: the statements in order, in the current scope. */
    method VisitBlock(ss: seq<Stmt>)
      requires StmtReady(st.frames) && BlockNamesAvoid(ss, RESERVED, false)
      modifies this, st
      ensures State() == GenBlock(old(State()), ss)
      decreases ss
    {
      ghost var g0 := State();
      var i := 0;
      while i < |ss|
        invariant 0 <= i <= |ss|
        invariant State() == GenBlock(g0, ss[..i])
      {
        assert ss[i] in ss;
        assert ss[..i + 1][..i] == ss[..i];
        VisitStmt(ss[i]);
        i := i + 1;
      }
      assert ss[..|ss|] == ss;
    }

    /**
     * `visitFunction`: binds the function in the current frame, opens its
     * scope, emits its label and frame set-up to the list of that scope,
     * declares the parameters, then visits the body and closes the scope.
     */
    method VisitFunction(it: Item)
      requires ItemReady(st.frames) && it.Function? && ItemNamesAvoid(it, RESERVED, false)
      modifies this, st
      ensures State() == GenItem(old(State()), it)
    {
      ghost var g := State();
      ghost var fs := BodyFrames(g.frames, it.name, it.params);
      var params := ParamList(it.params);
      OpenFunction(it.name, params, it.params);
      EmittedIsEmit(g.(frames := fs), text, funcs, InText(fs),
        [it.name + ":", "    move $fp, $sp", "    addi $sp, $sp, " + IntToString(AS.SP(fs))]);
      VisitBlock(it.body.statements);
      st.EndScope();
    }

    /** The loop of `visitFunction` that flattens the parameters into `[name, ".word", ...]`. */
    method ParamList(ps: seq<Param>) returns (params: seq<string>)
      ensures params == ParamPairs(ps)
    {
      params := [];
      var j := 0;
      while j < |ps|
        invariant 0 <= j <= |ps|
        invariant params == ParamPairs(ps[..j])
      {
        assert ps[..j + 1][..j] == ps[..j];
        params := params + [ps[j].name, WORD];
        j := j + 1;
      }
      assert ps[..|ps|] == ps;
    }

    /** `visitFunction` up to the body: the binding, the scope, the label, the parameters, the frame size. */
    method OpenFunction(name: string, params: seq<string>, ghost ps: seq<Param>)
      requires ItemReady(st.frames) && params == ParamPairs(ps)
      requires name !in RESERVED && forall p | p in ps :: p.name !in RESERVED
      modifies this, st
      ensures st.frames == BodyFrames(old(st.frames), name, ps)
      ensures data == old(data) && rotulos == old(rotulos)
      ensures Emitted(old(text), old(funcs), text, funcs, InText(st.frames),
        [name + ":", "    move $fp, $sp", "    addi $sp, $sp, " + IntToString(AS.SP(st.frames))])
    {
      ghost var fs := BodyFrames(st.frames, name, ps);
      BodyFramesSteps(st.frames, name, ps);
      var returnType := WORD;
      st.AddFunction(name, params, returnType);
      st.BeginScope(name);
      var toText := GetList();
      ghost var t0, f0 := text, funcs;
      Append(toText, [name + ":", "    move $fp, $sp"]);
      ghost var t1, f1 := text, funcs;
      if |params| > 0 {
        DeclareParams(params, ps);
      }
      assert st.frames == fs;
      var sp := st.GetSP();
      Append(toText, ["    addi $sp, $sp, " + IntToString(sp)]);
      EmittedTwice(t0, f0, t1, f1, text, funcs, toText, [name + ":", "    move $fp, $sp"], ["    addi $sp, $sp, " + IntToString(sp)]);
      ThreeLines(name + ":", "    move $fp, $sp", "    addi $sp, $sp, " + IntToString(sp));
    }

    /** The parameter loop of `visitFunction`: `addVar` on every other entry of the flattened list. */
    method DeclareParams(params: seq<string>, ghost ps: seq<Param>)
      requires params == ParamPairs(ps) && |st.frames| > 0 && AS.NoFunctions(AS.Top(st.frames))
      requires forall p | p in ps :: p.name !in RESERVED
      modifies st
      ensures st.frames == AS.DeclareAll(old(st.frames), ParamNames(ps), WORD)
    {
      ghost var fs0 := st.frames;
      ghost var names := ParamNames(ps);
      var k := 0;
      ghost var j := 0;
      while k < |params|
        invariant 0 <= j <= |ps| && k == 2 * j
        invariant st.frames == AS.DeclareAll(fs0, names[..j], WORD)
      {
        ParamDeclareStep(fs0, ps, j);
        st.AddVar(params[k], params[k + 1]);
        k := k + 2;
        j := j + 1;
      }
      ParamsDone(ps, j);
    }

    /** `accept` on a top-level item. */
    method VisitItem(it: Item)
      requires ItemReady(st.frames) && ItemSafe(st.frames, it) && ItemNamesAvoid(it, RESERVED, false)
      modifies this, st
      ensures State() == GenItem(old(State()), it)
    {
      match it
      case DeclItem(d) =>
        if d.ConstDecl? {
          VisitConstDecl(d);
        } else {
          VisitVarDecl(d);
        }
      case Function(_, _, _, _, _) =>
        VisitFunction(it);
    }

    /**
     * Whether `addVar` / `addConst` would raise on the item: a global
     * declaration whose name the global frame binds to a function has no
     * offset to keep.
     */
    method Raises(it: Item) returns (raises: bool)
      requires |st.frames| > 0
      ensures raises == !ItemSafe(st.frames, it)
    {
      raises := false;
      if it.DeclItem? {
        var top := st.frames[|st.frames| - 1];
        raises := it.decl.name in top.binds && top.binds[it.decl.name].Function?;
      }
    }

    /** `visitProgram`: the items in order; `ok` is false where the visitor raises, and it stops there. */
    method VisitProgram(p: Program) returns (ok: bool)
      requires ItemReady(st.frames) && ProgramNamesAvoid(p, RESERVED, false)
      modifies this, st
      ensures ok == GenProgram(old(State()), p.items).Some?
      ensures ok ==> State() == GenProgram(old(State()), p.items).value
    {
      ghost var g0 := State();
      var i := 0;
      while i < |p.items|
        invariant 0 <= i <= |p.items|
        invariant GenProgram(g0, p.items[..i]).Some? && State() == GenProgram(g0, p.items[..i]).value
      {
        var item := p.items[i];
        assert p.items[..i + 1][..i] == p.items[..i];
        var raises := Raises(item);
        if raises {
          GenProgramFails(g0, p.items, i + 1);
          return false;
        }
        VisitItem(item);
        i := i + 1;
      }
      assert p.items[..|p.items|] == p.items;
      ok := true;
    }

    /** `get_code`: the whole program as one string. */
    method GetCode() returns (code: string)
      ensures code == Join(CodeLines(data, text, funcs))
    {
      var finalcode := DataDirectives();
      finalcode := finalcode + text;
      finalcode := finalcode + ["    j end"];
      finalcode := finalcode + funcs;
      finalcode := finalcode + [EPILOGUE];
      assert finalcode == CodeLines(data, text, funcs);
      code := Join(finalcode);
    }

    /** The first part of `get_code`: the data section. */
    method DataDirectives() returns (finalcode: seq<string>)
      ensures finalcode == DataSection(data)
    {
      finalcode := [];
      if data != {} {
        finalcode := [".data"];
        var names := Ordering.SortedNames(data);
        finalcode := AppendDataLines(finalcode, names);
      }
    }
  }

  /** The loop of `get_code` over the sorted globals. */
  method AppendDataLines(lines: seq<string>, names: seq<string>) returns (finalcode: seq<string>)
    ensures finalcode == lines + DataLines(names)
  {
    finalcode := lines;
    var i := 0;
    while i < |names|
      invariant 0 <= i <= |names|
      invariant finalcode == lines + DataLines(names[..i])
    {
      assert names[..i + 1][..i] == names[..i];
      finalcode := finalcode + ["    " + names[i] + ": .word 0"];
      i := i + 1;
    }
    assert names[..|names|] == names;
  }
}
