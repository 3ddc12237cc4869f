/**
 * The type checker's scope stack (SymbolTable.py).
 *
 * The source keeps a module-level list of dictionaries; each dictionary is
 * one frame holding its scope name under the key 'scope' next to the
 * bindings.  Here the list is the field `frames` of a `Table` object and a
 * frame is a record of its tag and its bindings.  Because the tag shares the
 * dictionary with the bindings, a binding called 'scope' would collide with
 * it; every operation that takes a binding name requires `ValidName`.
 */
module SymbolTable {
  import opened Optional

  /** Type names are plain strings; annotations may be any identifier. */
  type Ty = string

  const INT: Ty := "int"
  const FLOAT: Ty := "float"
  const BOOL: Ty := "bool"
  const VOID: Ty := "void"
  const STRING: Ty := "string"
  const CHAR: Ty := "char"

  /** The dictionary key under which a frame stores its scope name. */
  const SCOPE_KEY := "scope"

  /** `Number = [INT, FLOAT]`; `None` is not a number. */
  predicate IsNumber(t: Option<Ty>)
  {
    t == Some(INT) || t == Some(FLOAT)
  }

  predicate ValidName(n: string)
  {
    n != SCOPE_KEY
  }

  /**
   * A binding: a variable or a constant with a possibly unknown type and
   * the offset given at declaration (`None` by default), or a function with
   * its flattened `[name, type, ...]` parameter list and its return type.
   */
  datatype Binding =
    | Variable(ty: Option<Ty>, offset: Option<int>)
    | Constant(ty: Option<Ty>, offset: Option<int>)
    | Function(params: seq<string>, ret: Ty)

  /** The binding's 'type' entry: for a function, its return type. */
  function TypeOf(b: Binding): Option<Ty>
  {
    match b
    case Variable(t, _) => t
    case Constant(t, _) => t
    case Function(_, r) => Some(r)
  }

  datatype Frame = Frame(tag: string, binds: map<string, Binding>)

  /** The index of the innermost frame that binds `n`, if any. */
  function Innermost(frames: seq<Frame>, n: string): (r: Option<nat>)
    ensures r.Some? ==> r.value < |frames| && n in frames[r.value].binds
    ensures r.Some? ==> forall j | r.value < j < |frames| :: n !in frames[j].binds
    ensures r.None? ==> forall j | 0 <= j < |frames| :: n !in frames[j].binds
  {
    if |frames| == 0 then None
    else if n in frames[|frames| - 1].binds then Some(|frames| - 1)
    else Innermost(frames[..|frames| - 1], n)
  }

  /** What `getBindable` returns. */
  function Lookup(frames: seq<Frame>, n: string): Option<Binding>
  {
    match Innermost(frames, n)
    case Some(i) => Some(frames[i].binds[n])
    case None => None
  }

  /** What `getScope` returns. */
  function ScopeOf(frames: seq<Frame>, n: string): Option<string>
  {
    match Innermost(frames, n)
    case Some(i) => Some(frames[i].tag)
    case None => None
  }

  /** What `getCurrentScope` returns. */
  function CurrentScope(frames: seq<Frame>): (r: Option<string>)
    ensures r.None? <==> frames == []
    ensures r.Some? ==> r.value == frames[|frames| - 1].tag
  {
    if |frames| > 0 then Some(frames[|frames| - 1].tag) else None
  }

  /** `symbolTable[0:-1]`: the empty list slices to itself. */
  function Pop(frames: seq<Frame>): seq<Frame>
  {
    if |frames| == 0 then [] else frames[..|frames| - 1]
  }

  /** `symbolTable[-1][n] = b`. */
  function Bind(frames: seq<Frame>, n: string, b: Binding): seq<Frame>
    requires |frames| > 0
  {
    var top := frames[|frames| - 1];
    frames[..|frames| - 1] + [Frame(top.tag, top.binds[n := b])]
  }

  /** Lookup finds a name exactly when some frame binds it, and then in the innermost such frame. */
  lemma LookupIsInnermost(frames: seq<Frame>, n: string, i: nat)
    requires i < |frames| && n in frames[i].binds
    requires forall j | i < j < |frames| :: n !in frames[j].binds
    ensures Lookup(frames, n) == Some(frames[i].binds[n])
    ensures ScopeOf(frames, n) == Some(frames[i].tag)
  {
  }

  /** getBindable and getScope agree on whether a name is declared. */
  lemma LookupAndScopeAgree(frames: seq<Frame>, n: string)
    ensures Lookup(frames, n).None? <==> ScopeOf(frames, n).None?
    ensures Lookup(frames, n).None? <==> forall j | 0 <= j < |frames| :: n !in frames[j].binds
  {
  }

  /** beginScope pushes one frame, makes it current, and hides nothing. */
  lemma BeginScopeFacts(frames: seq<Frame>, tag: string, n: string)
    ensures CurrentScope(frames + [Frame(tag, map[])]) == Some(tag)
    ensures Lookup(frames + [Frame(tag, map[])], n) == Lookup(frames, n)
    ensures ScopeOf(frames + [Frame(tag, map[])], n) == ScopeOf(frames, n)
    ensures Pop(frames + [Frame(tag, map[])]) == frames
  {
    var fs := frames + [Frame(tag, map[])];
    assert fs[..|fs| - 1] == frames;
  }

  /** A write to the top frame is seen by its own name and by no other. */
  lemma BindFacts(frames: seq<Frame>, n: string, b: Binding, m: string)
    requires |frames| > 0
    ensures |Bind(frames, n, b)| == |frames|
    ensures Pop(Bind(frames, n, b)) == Pop(frames)
    ensures CurrentScope(Bind(frames, n, b)) == CurrentScope(frames)
    ensures Lookup(Bind(frames, n, b), n) == Some(b)
    ensures ScopeOf(Bind(frames, n, b), n) == CurrentScope(frames)
    ensures m != n ==> Lookup(Bind(frames, n, b), m) == Lookup(frames, m)
    ensures m != n ==> ScopeOf(Bind(frames, n, b), m) == ScopeOf(frames, m)
  {
    var fs := Bind(frames, n, b);
    assert fs[..|fs| - 1] == frames[..|frames| - 1];
  }

  /**
   * Shadowing: while a frame that binds `n` is on top, `n` resolves to it;
   * once it is popped, `n` resolves as before it was pushed, and a name
   * bound only in the popped frame is no longer found.
   */
  lemma ShadowingAndRestore(frames: seq<Frame>, top: Frame, n: string)
    requires n in top.binds
    ensures Lookup(frames + [top], n) == Some(top.binds[n])
    ensures ScopeOf(frames + [top], n) == Some(top.tag)
    ensures Lookup(Pop(frames + [top]), n) == Lookup(frames, n)
    ensures (forall j | 0 <= j < |frames| :: n !in frames[j].binds) ==> Lookup(Pop(frames + [top]), n).None?
  {
    var fs := frames + [top];
    assert fs[..|fs| - 1] == frames;
  }

  /**
   * A whole scope's life: push a frame, declare in it, pop it; every name
   * then resolves exactly as before the push.
   */
  lemma {:induction false} ScopeLeavesNoTrace(frames: seq<Frame>, tag: string, decls: seq<(string, Binding)>, m: string)
    ensures Pop(BindAll(frames + [Frame(tag, map[])], decls)) == frames
    ensures Lookup(Pop(BindAll(frames + [Frame(tag, map[])], decls)), m) == Lookup(frames, m)
  {
    BindAllKeepsLower(frames + [Frame(tag, map[])], decls);
    var fs := frames + [Frame(tag, map[])];
    assert fs[..|fs| - 1] == frames;
  }

  /** A run of `addVar`/`addConst`/`addFunction` calls on the current frame. */
  function BindAll(frames: seq<Frame>, decls: seq<(string, Binding)>): seq<Frame>
    requires |frames| > 0
  {
    if decls == [] then frames
    else Bind(BindAll(frames, decls[..|decls| - 1]), decls[|decls| - 1].0, decls[|decls| - 1].1)
  }

  lemma {:induction false} BindAllKeepsLower(frames: seq<Frame>, decls: seq<(string, Binding)>)
    requires |frames| > 0
    ensures |BindAll(frames, decls)| == |frames|
    ensures Pop(BindAll(frames, decls)) == Pop(frames)
    ensures CurrentScope(BindAll(frames, decls)) == CurrentScope(frames)
  {
    if decls != [] {
      var last := decls[|decls| - 1];
      BindAllKeepsLower(frames, decls[..|decls| - 1]);
      BindFacts(BindAll(frames, decls[..|decls| - 1]), last.0, last.1, last.0);
    }
  }

  /** A run of declarations leaves every name it does not declare resolving as before. */
  lemma {:induction false} BindAllOther(frames: seq<Frame>, decls: seq<(string, Binding)>, m: string)
    requires |frames| > 0
    requires forall k | 0 <= k < |decls| :: decls[k].0 != m
    ensures Lookup(BindAll(frames, decls), m) == Lookup(frames, m)
    ensures ScopeOf(BindAll(frames, decls), m) == ScopeOf(frames, m)
  {
    if decls != [] {
      var init := decls[..|decls| - 1];
      var last := decls[|decls| - 1];
      BindAllOther(frames, init, m);
      BindAllKeepsLower(frames, init);
      BindFacts(BindAll(frames, init), last.0, last.1, m);
    }
  }

  /**
   * After a run of declarations in the current frame, a declared name
   * resolves to its last declaration, found in that frame.
   */
  lemma {:induction false} BindAllLast(frames: seq<Frame>, decls: seq<(string, Binding)>, j: nat)
    requires |frames| > 0 && j < |decls|
    requires forall k | j < k < |decls| :: decls[k].0 != decls[j].0
    ensures Lookup(BindAll(frames, decls), decls[j].0) == Some(decls[j].1)
    ensures ScopeOf(BindAll(frames, decls), decls[j].0) == CurrentScope(frames)
  {
    var init := decls[..|decls| - 1];
    var last := decls[|decls| - 1];
    BindAllKeepsLower(frames, init);
    if j == |decls| - 1 {
      BindFacts(BindAll(frames, init), last.0, last.1, last.0);
    } else {
      BindAllLast(frames, init, j);
      BindFacts(BindAll(frames, init), last.0, last.1, decls[j].0);
    }
  }

  /** The module-level stack `symbolTable`, as an object. */
  class Table {
    var frames: seq<Frame>

    constructor ()
      ensures frames == []
    {
      frames := [];
    }

    method BeginScope(nameScope: string)
      modifies this
      ensures frames == old(frames) + [Frame(nameScope, map[])]
    {
      frames := frames + [Frame(nameScope, map[])];
    }

    method EndScope()
      modifies this
      ensures frames == Pop(old(frames))
    {
      frames := if |frames| == 0 then [] else frames[..|frames| - 1];
    }

    method AddVar(name: string, ty: Option<Ty>, offset: Option<int> := None)
      requires |frames| > 0 && ValidName(name)
      modifies this
      ensures frames == Bind(old(frames), name, Variable(ty, offset))
    {
      var top := frames[|frames| - 1];
      frames := frames[..|frames| - 1] + [Frame(top.tag, top.binds[name := Variable(ty, offset)])];
    }

    method AddConst(name: string, ty: Option<Ty>, offset: Option<int> := None)
      requires |frames| > 0 && ValidName(name)
      modifies this
      ensures frames == Bind(old(frames), name, Constant(ty, offset))
    {
      var top := frames[|frames| - 1];
      frames := frames[..|frames| - 1] + [Frame(top.tag, top.binds[name := Constant(ty, offset)])];
    }

    method AddFunction(name: string, params: seq<string>, returnType: Ty)
      requires |frames| > 0 && ValidName(name)
      modifies this
      ensures frames == Bind(old(frames), name, Function(params, returnType))
    {
      var top := frames[|frames| - 1];
      frames := frames[..|frames| - 1] + [Frame(top.tag, top.binds[name := Function(params, returnType)])];
    }

    /** Searches the frames from the innermost outwards. */
    method GetBindable(bindableName: string) returns (b: Option<Binding>)
      requires ValidName(bindableName)
      ensures b == Lookup(frames, bindableName)
    {
      var i := |frames|;
      while i > 0
        invariant 0 <= i <= |frames|
        invariant forall j | i <= j < |frames| :: bindableName !in frames[j].binds
      {
        i := i - 1;
        if bindableName in frames[i].binds {
          LookupIsInnermost(frames, bindableName, i);
          return Some(frames[i].binds[bindableName]);
        }
      }
      return None;
    }

    method GetScope(bindableName: string) returns (s: Option<string>)
      requires ValidName(bindableName)
      ensures s == ScopeOf(frames, bindableName)
    {
      var i := |frames|;
      while i > 0
        invariant 0 <= i <= |frames|
        invariant forall j | i <= j < |frames| :: bindableName !in frames[j].binds
      {
        i := i - 1;
        if bindableName in frames[i].binds {
          LookupIsInnermost(frames, bindableName, i);
          return Some(frames[i].tag);
        }
      }
      return None;
    }

    method GetCurrentScope() returns (s: Option<string>)
      ensures s == CurrentScope(frames)
    {
      if |frames| > 0 {
        return Some(frames[|frames| - 1].tag);
      }
      return None;
    }
  }
}
