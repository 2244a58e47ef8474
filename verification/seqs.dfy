/** Sequence facts the loops need, stated once over any element type. */
module Seqs {

  lemma {:induction false} AppendAssoc<T>(a: seq<T>, b: seq<T>, x: T)
    ensures a + b + [x] == a + (b + [x])
  {
  }

  lemma {:induction false} TakeStep<T>(s: seq<T>, i: nat)
    requires i < |s|
    ensures s[..i + 1] == s[..i] + [s[i]]
    ensures s[..i + 1][..i] == s[..i]
    ensures |s[..i + 1]| == i + 1 && s[..i + 1][i] == s[i]
  {
  }

  lemma {:induction false} TakeAll<T>(s: seq<T>)
    ensures s[..|s|] == s
  {
  }

  function Elems<T>(s: seq<T>): set<T> {
    set x | x in s
  }

  predicate Distinct<T(==)>(s: seq<T>) {
    forall i, j | 0 <= i < j < |s| :: s[i] != s[j]
  }

  lemma {:induction false} ElemsStep<T>(s: seq<T>, i: nat)
    requires i < |s|
    ensures Elems(s[..i + 1]) == Elems(s[..i]) + {s[i]}
  {
    TakeStep(s, i);
  }

  /** The results for each element, one after the other. */
  function FlatMap<S, T>(s: seq<S>, f: S -> seq<T>): seq<T> {
    if s == [] then [] else FlatMap(s[..|s| - 1], f) + f(s[|s| - 1])
  }

  lemma {:induction false} InFlatMap<S, T>(s: seq<S>, f: S -> seq<T>, t: T)
    ensures t in FlatMap(s, f) <==> exists x :: x in s && t in f(x)
  {
    if s != [] {
      var n := |s| - 1;
      InFlatMap(s[..n], f, t);
      assert s == s[..n] + [s[n]];
    }
  }

  lemma {:induction false} FlatMapEmpty<S, T>(s: seq<S>, f: S -> seq<T>, i: nat)
    requires FlatMap(s, f) == [] && i < |s|
    ensures f(s[i]) == []
  {
    if i < |s| - 1 { FlatMapEmpty(s[..|s| - 1], f, i); }
  }
}
