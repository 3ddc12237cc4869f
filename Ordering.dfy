/**
 * Python's ordering of strings (code point by code point, a proper prefix
 * first) and the sorted listing of a set of names that `sorted(self.data)`
 * produces in `get_code`.
 */
module Ordering {
  /** `a < b` on Python strings. */
  predicate StrLt(a: string, b: string)
    decreases |a|
  {
    if a == [] then b != []
    else if b == [] then false
    else if a[0] == b[0] then StrLt(a[1..], b[1..])
    else a[0] < b[0]
  }

  lemma {:induction false} StrLtIrreflexive(a: string)
    ensures !StrLt(a, a)
    decreases |a|
  {
    if a != [] {
      StrLtIrreflexive(a[1..]);
    }
  }

  lemma {:induction false} StrLtTransitive(a: string, b: string, c: string)
    requires StrLt(a, b) && StrLt(b, c)
    ensures StrLt(a, c)
    decreases |a|
  {
    if a != [] && b != [] && c != [] && a[0] == b[0] && b[0] == c[0] {
      StrLtTransitive(a[1..], b[1..], c[1..]);
    }
  }

  /** Any two different strings are ordered one way or the other. */
  lemma {:induction false} StrLtTotal(a: string, b: string)
    requires a != b
    ensures StrLt(a, b) || StrLt(b, a)
    decreases |a|
  {
    if a != [] && b != [] && a[0] == b[0] {
      assert a == [a[0]] + a[1..] && b == [b[0]] + b[1..];
      StrLtTotal(a[1..], b[1..]);
    }
  }

  /** Strictly increasing, hence without repetition. */
  predicate Sorted(s: seq<string>)
  {
    forall i, j | 0 <= i < j < |s| :: StrLt(s[i], s[j])
  }

  function Elems(s: seq<string>): set<string>
  {
    set x | x in s
  }

  /** Comparing the least element of the rest with one more element. */
  lemma LeastStep(d: set<string>, y: string, m: string)
    requires y in d && m in d && m != y
    requires forall x | x in d && x != y :: x == m || StrLt(m, x)
    ensures var r := if StrLt(m, y) then m else y;
      forall x | x in d :: x == r || StrLt(r, x)
  {
    if !StrLt(m, y) {
      StrLtTotal(m, y);
      forall x | x in d && x != y && x != m
        ensures StrLt(y, x)
      {
        StrLtTransitive(y, m, x);
      }
    }
  }

  /** The least element of a non-empty finite set of strings. */
  ghost function Least(d: set<string>): (m: string)
    requires d != {}
    ensures m in d && forall x | x in d :: x == m || StrLt(m, x)
    decreases |d|
  {
    var y :| y in d;
    if d == {y} then y
    else
      var m := Least(d - {y});
      LeastStep(d, y, m);
      if StrLt(m, y) then m else y
  }

  /** `sorted(d)`: the names of `d` in increasing order, each once. */
  ghost function Listing(d: set<string>): (r: seq<string>)
    ensures Sorted(r) && Elems(r) == d && |r| == |d|
    decreases |d|
  {
    if d == {} then []
    else
      var m := Least(d);
      var rest := Listing(d - {m});
      ConsSorted(m, rest, d);
      [m] + rest
  }

  /** Putting the least element in front of the listing of the others. */
  lemma ConsSorted(m: string, rest: seq<string>, d: set<string>)
    requires m in d && forall x | x in d :: x == m || StrLt(m, x)
    requires Sorted(rest) && Elems(rest) == d - {m}
    ensures Sorted([m] + rest) && Elems([m] + rest) == d
  {
    var r := [m] + rest;
    forall i, j | 0 <= i < j < |r|
      ensures StrLt(r[i], r[j])
    {
      if i == 0 {
        assert r[j] == rest[j - 1] && rest[j - 1] in Elems(rest);
      } else {
        assert r[i] == rest[i - 1] && r[j] == rest[j - 1];
      }
    }
    assert Elems(r) == {m} + Elems(rest) by {
      assert forall x | x in r :: x == m || x in rest;
      assert forall x | x in rest :: x in r;
    }
  }

  /** Appending a name above all the listed ones keeps the listing sorted. */
  lemma SnocSorted(names: seq<string>, m: string)
    requires Sorted(names) && forall i | 0 <= i < |names| :: StrLt(names[i], m)
    ensures Sorted(names + [m]) && Elems(names + [m]) == Elems(names) + {m}
  {
    var r := names + [m];
    forall i, j | 0 <= i < j < |r|
      ensures StrLt(r[i], r[j])
    {
      assert r[i] == names[i];
    }
    assert forall x | x in r :: x in names || x == m;
    assert forall x | x in names :: x in r;
  }

  lemma ElemsEmpty(s: seq<string>)
    ensures Elems(s) == {} <==> s == []
  {
    if s != [] {
      assert s[0] in Elems(s);
    }
  }

  /** A set has one sorted listing only. */
  lemma {:induction false} SortedUnique(a: seq<string>, b: seq<string>)
    requires Sorted(a) && Sorted(b) && Elems(a) == Elems(b)
    ensures a == b
    decreases |a|
  {
    ElemsEmpty(a);
    ElemsEmpty(b);
    if a != [] {
      assert a[0] in Elems(b);
      assert b[0] in Elems(a);
      var i :| 0 <= i < |a| && a[i] == b[0];
      var j :| 0 <= j < |b| && b[j] == a[0];
      if a[0] != b[0] {
        assert i > 0 && j > 0;
        assert StrLt(a[0], b[0]) && StrLt(b[0], a[0]);
        StrLtTransitive(a[0], b[0], a[0]);
        StrLtIrreflexive(a[0]);
      }
      assert Elems(a[1..]) == Elems(a) - {a[0]} by {
        forall x | x in a[1..] ensures x != a[0] {
          var k :| 0 <= k < |a[1..]| && a[1..][k] == x;
          assert StrLt(a[0], a[k + 1]);
          StrLtIrreflexive(a[0]);
        }
        assert a == [a[0]] + a[1..];
      }
      assert Elems(b[1..]) == Elems(b) - {b[0]} by {
        forall x | x in b[1..] ensures x != b[0] {
          var k :| 0 <= k < |b[1..]| && b[1..][k] == x;
          assert StrLt(b[0], b[k + 1]);
          StrLtIrreflexive(b[0]);
        }
        assert b == [b[0]] + b[1..];
      }
      SortedUnique(a[1..], b[1..]);
      assert a == [a[0]] + a[1..] && b == [b[0]] + b[1..];
    }
  }

  /** The least name of a non-empty set of strings, by one pass over it. */
  method LeastOf(d: set<string>) returns (m: string)
    requires d != {}
    ensures m in d && forall x | x in d :: x == m || StrLt(m, x)
  {
    m :| m in d;
    var rest := d - {m};
    while rest != {}
      invariant rest <= d && m in d && m !in rest
      invariant forall x | x in d && x !in rest :: x == m || StrLt(m, x)
      decreases |rest|
    {
      var x :| x in rest;
      if StrLt(x, m) {
        forall y | y in d && y !in rest && y != m
          ensures StrLt(x, y)
        {
          StrLtTransitive(x, m, y);
        }
        m := x;
      } else if x != m {
        StrLtTotal(x, m);
      }
      rest := rest - {x};
    }
  }

  /** `sorted(d)`: repeatedly takes the least remaining name. */
  method SortedNames(d: set<string>) returns (names: seq<string>)
    ensures names == Listing(d)
  {
    names := [];
    var rest := d;
    while rest != {}
      invariant rest <= d && Elems(names) == d - rest
      invariant Sorted(names)
      invariant forall i, x | 0 <= i < |names| && x in rest :: StrLt(names[i], x)
      decreases |rest|
    {
      var m := LeastOf(rest);
      ListingStep(d, names, rest, m);
      names := names + [m];
      rest := rest - {m};
    }
    SortedUnique(names, Listing(d));
  }

  /** Taking the least remaining name keeps the listing loop's invariant. */
  lemma ListingStep(d: set<string>, names: seq<string>, rest: set<string>, m: string)
    requires rest <= d && Elems(names) == d - rest && Sorted(names)
    requires forall i, x | 0 <= i < |names| && x in rest :: StrLt(names[i], x)
    requires m in rest && forall x | x in rest :: x == m || StrLt(m, x)
    ensures rest - {m} <= d && Elems(names + [m]) == d - (rest - {m}) && Sorted(names + [m])
    ensures forall i, x | 0 <= i < |names + [m]| && x in rest - {m} :: StrLt((names + [m])[i], x)
  {
    SnocSorted(names, m);
    var r := names + [m];
    forall i, x | 0 <= i < |r| && x in rest - {m}
      ensures StrLt(r[i], x)
    {
      if i < |names| {
        assert r[i] == names[i];
      }
    }
  }
}
