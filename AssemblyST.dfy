/**
 * The code generator's scope stack (AssemblyST.py).
 *
 * The same stack of frames as the checker's table, but every frame also
 * carries a running stack-pointer counter stored under the key 'sp', and a
 * variable or constant gets a stack offset when it is first declared in a
 * frame: the counter drops by 4 and the new value is the offset.  Since the
 * 'scope' and 'sp' entries share each frame's dictionary with the bindings,
 * the names 'scope' and 'sp' are excluded by `ValidName`.
 */
module AssemblyST {
  import opened Optional

  const SCOPE_KEY := "scope"
  const SP_KEY := "sp"
  const SCOPE_GLOBAL := "global"

  /** The size of one stack slot. */
  const SLOT := 4

  predicate ValidName(n: string)
  {
    n != SCOPE_KEY && n != SP_KEY
  }

  /** Variables and constants always have an offset here; functions have none. */
  datatype Binding =
    | Variable(ty: string, offset: int)
    | Constant(ty: string, offset: int)
    | Function(params: seq<string>, ret: string)

  datatype Frame = Frame(tag: string, sp: int, binds: map<string, Binding>)

  /** A frame holds no function binding. */
  predicate NoFunctions(f: Frame)
  {
    forall n | n in f.binds :: !f.binds[n].Function?
  }

  function Top(frames: seq<Frame>): Frame
    requires |frames| > 0
  {
    frames[|frames| - 1]
  }

  /** The index of the innermost frame that binds `n`, if any. */
  function Innermost(frames: seq<Frame>, n: string): (r: Option<nat>)
    ensures r.Some? ==> r.value < |frames| && n in frames[r.value].binds
    ensures r.Some? ==> forall j | r.value < j < |frames| :: n !in frames[j].binds
    ensures r.None? ==> forall j | 0 <= j < |frames| :: n !in frames[j].binds
  {
    if |frames| == 0 then None
    else if n in frames[|frames| - 1].binds then Some(|frames| - 1)
    else Innermost(frames[..|frames| - 1], n)
  }

  /** What `getBindable` returns. */
  function Lookup(frames: seq<Frame>, n: string): Option<Binding>
  {
    match Innermost(frames, n)
    case Some(i) => Some(frames[i].binds[n])
    case None => None
  }

  /**
   * What `getScope` returns: with no name, the current tag; with a name,
   * the tag of the innermost frame binding it, or the current tag if none does.
   */
  function ScopeOf(frames: seq<Frame>, n: Option<string>): string
    requires |frames| > 0
  {
    if n.None? then Top(frames).tag
    else match Innermost(frames, n.value)
      case Some(i) => frames[i].tag
      case None => Top(frames).tag
  }

  /** What `getCurrentScope` returns. */
  function CurrentScope(frames: seq<Frame>): (r: Option<string>)
    ensures r.None? <==> frames == []
    ensures r.Some? ==> r.value == frames[|frames| - 1].tag
  {
    if |frames| > 0 then Some(Top(frames).tag) else None
  }

  function Pop(frames: seq<Frame>): seq<Frame>
  {
    if |frames| == 0 then [] else frames[..|frames| - 1]
  }

  function SP(frames: seq<Frame>): int
    requires |frames| > 0
  {
    Top(frames).sp
  }

  /** `symbolTable[-1][SP] += v`. */
  function AddSp(frames: seq<Frame>, v: int): (r: seq<Frame>)
    requires |frames| > 0
  {
    var top := Top(frames);
    frames[..|frames| - 1] + [Frame(top.tag, top.sp + v, top.binds)]
  }

  /**
   * `addVar` (constant = false) or `addConst` (constant = true) on one frame.
   * The source reads the old entry's offset when the name is already in the
   * frame, which fails for a function entry; that case is excluded.
   */
  function DeclareIn(f: Frame, n: string, constant: bool, ty: string): Frame
    requires n in f.binds ==> !f.binds[n].Function?
  {
    var sp := if n in f.binds then f.sp else f.sp - SLOT;
    var off := if n in f.binds then f.binds[n].offset else sp;
    Frame(f.tag, sp, f.binds[n := if constant then Constant(ty, off) else Variable(ty, off)])
  }

  /** `addVar` / `addConst` on the top frame. */
  function Declare(frames: seq<Frame>, n: string, constant: bool, ty: string): seq<Frame>
    requires |frames| > 0
    requires n in Top(frames).binds ==> !Top(frames).binds[n].Function?
  {
    frames[..|frames| - 1] + [DeclareIn(Top(frames), n, constant, ty)]
  }

  /** `addFunction`: overwrites the top-frame entry, leaves the counter alone. */
  function BindFunction(frames: seq<Frame>, n: string, params: seq<string>, ret: string): seq<Frame>
    requires |frames| > 0
  {
    var top := Top(frames);
    frames[..|frames| - 1] + [Frame(top.tag, top.sp, top.binds[n := Function(params, ret)])]
  }

  /** Declaring a run of variables in order into one frame. */
  function DeclareAllIn(f: Frame, names: seq<string>, ty: string): (g: Frame)
    requires NoFunctions(f)
    ensures g.tag == f.tag && NoFunctions(g)
  {
    if names == [] then f
    else DeclareIn(DeclareAllIn(f, names[..|names| - 1], ty), names[|names| - 1], false, ty)
  }

  /** The run of `addVar` calls `visitFunction` makes for its parameters. */
  function DeclareAll(frames: seq<Frame>, names: seq<string>, ty: string): (r: seq<Frame>)
    requires |frames| > 0 && NoFunctions(Top(frames))
  {
    frames[..|frames| - 1] + [DeclareAllIn(Top(frames), names, ty)]
  }

  /** The elements of a sequence of names. */
  function Elems(names: seq<string>): set<string>
  {
    set n | n in names
  }

  /**
   * The slot discipline of a frame whose counter has only been moved by
   * declarations: the counter is -4 times the number of names, and the
   * names own the distinct slots -4, -8, ..., down to the counter.
   */
  predicate SlotsWellFormed(f: Frame)
  {
    && f.sp == -4 * |f.binds.Keys|
    && NoFunctions(f)
    && (forall n | n in f.binds :: f.sp <= f.binds[n].offset <= -SLOT)
    && (forall n, m | n in f.binds && m in f.binds && n != m :: f.binds[n].offset != f.binds[m].offset)
  }

  /** A fresh name takes the next slot down; a re-declared one keeps its slot and the counter. */
  lemma DeclareSlot(f: Frame, n: string, constant: bool, ty: string)
    requires NoFunctions(f)
    ensures var g := DeclareIn(f, n, constant, ty);
      && g.tag == f.tag
      && g.binds.Keys == f.binds.Keys + {n}
      && (n !in f.binds ==> g.sp == f.sp - SLOT && g.binds[n].offset == g.sp)
      && (n in f.binds ==> g.sp == f.sp && g.binds[n].offset == f.binds[n].offset)
      && g.binds[n] == (if constant then Constant(ty, g.binds[n].offset) else Variable(ty, g.binds[n].offset))
      && (forall m | m in f.binds && m != n :: g.binds[m] == f.binds[m])
      && NoFunctions(g)
  {
  }

  /** Declarations keep the slot discipline: no two names ever share a slot. */
  lemma DeclarePreservesSlots(f: Frame, n: string, constant: bool, ty: string)
    requires SlotsWellFormed(f)
    ensures SlotsWellFormed(DeclareIn(f, n, constant, ty))
  {
    if n !in f.binds {
      FreshNameKeepsSlots(f, n, constant, ty);
    } else {
      KnownNameKeepsSlots(f, n, constant, ty);
    }
  }

  /** A new name takes the slot just below every slot in use. */
  lemma FreshNameKeepsSlots(f: Frame, n: string, constant: bool, ty: string)
    requires SlotsWellFormed(f) && n !in f.binds
    ensures SlotsWellFormed(DeclareIn(f, n, constant, ty))
  {
    var g := DeclareIn(f, n, constant, ty);
    DeclareSlot(f, n, constant, ty);
    assert |g.binds.Keys| == |f.binds.Keys| + 1;
    forall m | m in g.binds && m != n
      ensures g.sp < g.binds[m].offset <= -SLOT
    {
      assert g.binds[m] == f.binds[m];
    }
    forall m1, m2 | m1 in g.binds && m2 in g.binds && m1 != m2
      ensures g.binds[m1].offset != g.binds[m2].offset
    {
      if m1 != n && m2 != n {
        assert g.binds[m1] == f.binds[m1] && g.binds[m2] == f.binds[m2];
      }
    }
  }

  /** A re-declared name keeps its slot, so no slot changes hands. */
  lemma KnownNameKeepsSlots(f: Frame, n: string, constant: bool, ty: string)
    requires SlotsWellFormed(f) && n in f.binds
    ensures SlotsWellFormed(DeclareIn(f, n, constant, ty))
  {
    var g := DeclareIn(f, n, constant, ty);
    DeclareSlot(f, n, constant, ty);
    assert g.binds.Keys == f.binds.Keys;
    forall m | m in g.binds
      ensures g.binds[m].offset == f.binds[m].offset
    {
    }
  }

  /**
   * The parameters of a function: declared into a fresh frame, they leave
   * its counter at -4 times the number of distinct names, and each name owns
   * one slot; `ParamOffsetsInOrder` gives which slot.
   */
  lemma {:induction false} DeclareAllSlots(tag: string, names: seq<string>, ty: string)
    ensures var g := DeclareAllIn(Frame(tag, 0, map[]), names, ty);
      && g.binds.Keys == Elems(names)
      && SlotsWellFormed(g)
      && g.sp == -4 * |Elems(names)|
      && (forall n | n in g.binds :: g.binds[n] == Variable(ty, g.binds[n].offset))
  {
    if names == [] {
      assert Frame(tag, 0, map[]).binds.Keys == {};
    } else {
      DeclareAllSlots(tag, names[..|names| - 1], ty);
      DeclareAllSlotsStep(tag, names, ty);
    }
  }

  /** The names of a run are those before its last one, and the last one. */
  lemma ElemsInitLast(names: seq<string>)
    requires names != []
    ensures Elems(names) == Elems(names[..|names| - 1]) + {names[|names| - 1]}
  {
    assert names == names[..|names| - 1] + [names[|names| - 1]];
  }

  /** One more parameter keeps the slot discipline of `DeclareAllSlots`. */
  lemma DeclareAllSlotsStep(tag: string, names: seq<string>, ty: string)
    requires names != []
    requires var f := DeclareAllIn(Frame(tag, 0, map[]), names[..|names| - 1], ty);
      && f.binds.Keys == Elems(names[..|names| - 1])
      && SlotsWellFormed(f)
      && f.sp == -4 * |Elems(names[..|names| - 1])|
      && (forall n | n in f.binds :: f.binds[n] == Variable(ty, f.binds[n].offset))
    ensures var g := DeclareAllIn(Frame(tag, 0, map[]), names, ty);
      && g.binds.Keys == Elems(names)
      && SlotsWellFormed(g)
      && g.sp == -4 * |Elems(names)|
      && (forall n | n in g.binds :: g.binds[n] == Variable(ty, g.binds[n].offset))
  {
    var init := names[..|names| - 1];
    var last := names[|names| - 1];
    var f := DeclareAllIn(Frame(tag, 0, map[]), init, ty);
    var g := DeclareIn(f, last, false, ty);
    assert DeclareAllIn(Frame(tag, 0, map[]), names, ty) == g;
    DeclarePreservesSlots(f, last, false, ty);
    DeclareSlot(f, last, false, ty);
    ElemsInitLast(names);
    assert g.binds.Keys == Elems(names);
    forall m | m in g.binds
      ensures g.binds[m] == Variable(ty, g.binds[m].offset)
    {
      if m != last {
        assert g.binds[m] == f.binds[m];
      }
    }
  }

  /** Declaring a run of names into a fresh frame binds exactly those names and counts them. */
  lemma {:induction false} DeclareAllKeys(tag: string, names: seq<string>, ty: string)
    ensures var g := DeclareAllIn(Frame(tag, 0, map[]), names, ty);
      g.binds.Keys == Elems(names) && g.sp == -4 * |Elems(names)|
  {
    if names == [] {
      assert Frame(tag, 0, map[]).binds.Keys == {};
    } else {
      var init := names[..|names| - 1];
      var last := names[|names| - 1];
      DeclareAllKeys(tag, init, ty);
      var f := DeclareAllIn(Frame(tag, 0, map[]), init, ty);
      DeclareSlot(f, last, false, ty);
      assert Elems(names) == Elems(init) + {last} by {
        assert names == init + [last];
      }
    }
  }

  /** With no repeated parameter name, the i-th parameter sits at -4 * (i + 1). */
  lemma {:induction false} DistinctParamOffsets(tag: string, names: seq<string>, ty: string, i: nat)
    requires forall a, b | 0 <= a < b < |names| :: names[a] != names[b]
    requires i < |names|
    ensures var g := DeclareAllIn(Frame(tag, 0, map[]), names, ty);
      names[i] in g.binds && g.binds[names[i]].offset == -4 * (i + 1)
  {
    var init := names[..|names| - 1];
    var last := names[|names| - 1];
    var f := DeclareAllIn(Frame(tag, 0, map[]), init, ty);
    var g := DeclareAllIn(Frame(tag, 0, map[]), names, ty);
    assert g == DeclareIn(f, last, false, ty);
    DeclareSlot(f, last, false, ty);
    if i < |names| - 1 {
      DistinctParamOffsets(tag, init, ty, i);
      assert names[i] == init[i];
      assert names[i] != last;
    } else {
      DeclareAllKeys(tag, init, ty);
      assert last !in Elems(init) by {
        forall k | 0 <= k < |init| ensures init[k] != last {
          assert init[k] == names[k];
        }
      }
      DistinctElems(init);
      assert g.binds[last].offset == f.sp - 4 == -4 * |init| - 4;
    }
  }

  /** The names of a run in order of first occurrence, each kept once. */
  function FirstOccurrences(names: seq<string>): seq<string>
  {
    if names == [] then []
    else if names[|names| - 1] in names[..|names| - 1] then FirstOccurrences(names[..|names| - 1])
    else FirstOccurrences(names[..|names| - 1]) + [names[|names| - 1]]
  }

  /** Removing repeats keeps every name and leaves no name twice. */
  lemma {:induction false} FirstOccurrencesFacts(names: seq<string>)
    ensures Elems(FirstOccurrences(names)) == Elems(names)
    ensures forall a, b | 0 <= a < b < |FirstOccurrences(names)| ::
      FirstOccurrences(names)[a] != FirstOccurrences(names)[b]
  {
    if names != [] {
      var init := names[..|names| - 1];
      var last := names[|names| - 1];
      FirstOccurrencesFacts(init);
      ElemsInitLast(names);
      var d := FirstOccurrences(init);
      if last !in init {
        assert Elems(d + [last]) == Elems(d) + {last} by {
          assert (d + [last])[..|d|] == d;
          ElemsInitLast(d + [last]);
        }
        forall a | 0 <= a < |d| ensures d[a] != last {
          assert d[a] in Elems(d);
        }
      }
    }
  }

  /**
   * Parameters, repeated names included: the k-th distinct name, counted by
   * first occurrence, sits at -4 * (k + 1), since a repeat keeps its slot.
   */
  lemma {:induction false} ParamOffsetsInOrder(tag: string, names: seq<string>, ty: string, k: nat)
    requires k < |FirstOccurrences(names)|
    ensures var g := DeclareAllIn(Frame(tag, 0, map[]), names, ty);
      var d := FirstOccurrences(names);
      d[k] in g.binds && g.binds[d[k]].offset == -4 * (k + 1)
  {
    var init := names[..|names| - 1];
    var last := names[|names| - 1];
    var f := DeclareAllIn(Frame(tag, 0, map[]), init, ty);
    var g := DeclareAllIn(Frame(tag, 0, map[]), names, ty);
    var d := FirstOccurrences(init);
    assert g == DeclareIn(f, last, false, ty);
    DeclareSlot(f, last, false, ty);
    DeclareAllKeys(tag, init, ty);
    FirstOccurrencesFacts(init);
    if last in init {
      assert last in f.binds;
      ParamOffsetsInOrder(tag, init, ty, k);
    } else if k < |d| {
      ParamOffsetsInOrder(tag, init, ty, k);
      assert d[k] in Elems(init);
    } else {
      DistinctElems(d);
      assert g.binds[last].offset == f.sp - 4 == -4 * |d| - 4;
    }
  }

  lemma {:induction false} DistinctElems(names: seq<string>)
    requires forall a, b | 0 <= a < b < |names| :: names[a] != names[b]
    ensures |Elems(names)| == |names|
  {
    if names != [] {
      var init := names[..|names| - 1];
      DistinctElems(init);
      assert Elems(names) == Elems(init) + {names[|names| - 1]} by {
        assert names == init + [names[|names| - 1]];
      }
    }
  }

  /** Moving the counter touches nothing else, and successive moves add up. */
  lemma AddSpFacts(frames: seq<Frame>, a: int, b: int, n: string)
    requires |frames| > 0
    ensures |AddSp(frames, a)| == |frames| && Pop(AddSp(frames, a)) == Pop(frames)
    ensures SP(AddSp(frames, a)) == SP(frames) + a
    ensures Top(AddSp(frames, a)).tag == Top(frames).tag
    ensures Top(AddSp(frames, a)).binds == Top(frames).binds
    ensures AddSp(AddSp(frames, a), b) == AddSp(frames, a + b)
    ensures AddSp(frames, 0) == frames
    ensures Lookup(AddSp(frames, a), n) == Lookup(frames, n)
    ensures Innermost(AddSp(frames, a), n) == Innermost(frames, n)
  {
    var fs := AddSp(frames, a);
    assert fs[..|fs| - 1] == frames[..|frames| - 1];
    assert frames == frames[..|frames| - 1] + [Top(frames)];
    assert Innermost(fs, n) == Innermost(frames, n);
  }

  /** The module-level stack `symbolTable` of the generator, as an object. */
  class Table {
    var frames: seq<Frame>

    constructor ()
      ensures frames == []
    {
      frames := [];
    }

    method BeginScope(nameScope: string)
      modifies this
      ensures frames == old(frames) + [Frame(nameScope, 0, map[])]
    {
      frames := frames + [Frame(nameScope, 0, map[])];
    }

    method EndScope()
      modifies this
      ensures frames == Pop(old(frames))
    {
      frames := if |frames| == 0 then [] else frames[..|frames| - 1];
    }

    method AddVar(name: string, ty: string)
      requires |frames| > 0 && ValidName(name)
      requires name in Top(frames).binds ==> !Top(frames).binds[name].Function?
      modifies this
      ensures frames == Declare(old(frames), name, false, ty)
    {
      var top := frames[|frames| - 1];
      if name !in top.binds {
        var sp := top.sp - SLOT;
        frames := frames[..|frames| - 1] + [Frame(top.tag, sp, top.binds[name := Variable(ty, sp)])];
      } else {
        var off := top.binds[name].offset;
        frames := frames[..|frames| - 1] + [Frame(top.tag, top.sp, top.binds[name := Variable(ty, off)])];
      }
    }

    method AddConst(name: string, ty: string)
      requires |frames| > 0 && ValidName(name)
      requires name in Top(frames).binds ==> !Top(frames).binds[name].Function?
      modifies this
      ensures frames == Declare(old(frames), name, true, ty)
    {
      var top := frames[|frames| - 1];
      if name !in top.binds {
        var sp := top.sp - SLOT;
        frames := frames[..|frames| - 1] + [Frame(top.tag, sp, top.binds[name := Constant(ty, sp)])];
      } else {
        var off := top.binds[name].offset;
        frames := frames[..|frames| - 1] + [Frame(top.tag, top.sp, top.binds[name := Constant(ty, off)])];
      }
    }

    method AddFunction(name: string, params: seq<string>, returnType: string)
      requires |frames| > 0 && ValidName(name)
      modifies this
      ensures frames == BindFunction(old(frames), name, params, returnType)
    {
      var top := frames[|frames| - 1];
      frames := frames[..|frames| - 1] + [Frame(top.tag, top.sp, top.binds[name := Function(params, returnType)])];
    }

    method AddSP(value: int)
      requires |frames| > 0
      modifies this
      ensures frames == AddSp(old(frames), value)
    {
      var top := frames[|frames| - 1];
      frames := frames[..|frames| - 1] + [Frame(top.tag, top.sp + value, top.binds)];
    }

    method GetSP() returns (sp: int)
      requires |frames| > 0
      ensures sp == SP(frames)
    {
      sp := frames[|frames| - 1].sp;
    }

    /** Searches the frames from the innermost outwards. */
    method GetBindable(bindableName: string) returns (b: Option<Binding>)
      requires ValidName(bindableName)
      ensures b == Lookup(frames, bindableName)
    {
      var i := |frames|;
      while i > 0
        invariant 0 <= i <= |frames|
        invariant forall j | i <= j < |frames| :: bindableName !in frames[j].binds
      {
        i := i - 1;
        if bindableName in frames[i].binds {
          return Some(frames[i].binds[bindableName]);
        }
      }
      return None;
    }

    /** `getScope(bindableName=None)`. */
    method GetScope(bindableName: Option<string> := None) returns (s: string)
      requires |frames| > 0
      requires bindableName.Some? ==> ValidName(bindableName.value)
      ensures s == ScopeOf(frames, bindableName)
    {
      if bindableName.None? {
        return frames[|frames| - 1].tag;
      }
      var i := |frames|;
      while i > 0
        invariant 0 <= i <= |frames|
        invariant forall j | i <= j < |frames| :: bindableName.value !in frames[j].binds
      {
        i := i - 1;
        if bindableName.value in frames[i].binds {
          return frames[i].tag;
        }
      }
      return frames[|frames| - 1].tag;
    }

    method GetCurrentScope() returns (s: Option<string>)
      ensures s == CurrentScope(frames)
      ensures s.None? <==> frames == []
      ensures s.Some? ==> s.value == frames[|frames| - 1].tag
    {
      if |frames| > 0 {
        return Some(frames[|frames| - 1].tag);
      }
      return None;
    }
  }
}
