/**
 * Facts about prefixes of a sequence that the loops over parameters,
 * arguments, statements and items use at every turn, and a regrouping of
 * concatenations that the code-shape lemmas use.
 */
module Seqs {
  /** The prefix one longer is the prefix and the next element. */
  lemma TakeSnoc<T>(s: seq<T>, i: nat)
    requires i < |s|
    ensures s[..i + 1] == s[..i] + [s[i]]
  {
  }

  /** The prefix one longer, seen from its own end. */
  lemma TakeLast<T>(s: seq<T>, i: nat)
    requires i < |s|
    ensures var p := s[..i + 1];
      |p| == i + 1 && p[..i] == s[..i] && p[i] == s[i]
  {
  }

  /** Concatenation regrouped to the right. */
  lemma Regroup<T>(a: seq<T>, b: seq<T>, c: seq<T>, d: seq<T>)
    ensures a + b + c + d == a + (b + (c + d))
  {
  }
}
