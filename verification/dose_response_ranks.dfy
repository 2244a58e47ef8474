/** nuc/dose_response.py, the rank statistics. Ranks are exact rationals, held as reals. */
module DoseResponseRanks {
  import opened Seqs
  import opened Order

  // ------------------------------------------------------------------ sums

  function SumOver<T>(s: seq<T>, f: T -> real): real {
    if s == [] then 0.0 else SumOver(s[..|s| - 1], f) + f(s[|s| - 1])
  }

  lemma {:induction false} SumSame<T>(s: seq<T>, f: T -> real, g: T -> real)
    requires forall x | x in s :: f(x) == g(x)
    ensures SumOver(s, f) == SumOver(s, g)
  {
    if s != [] { SumSame(s[..|s| - 1], f, g); }
  }

  lemma {:induction false} Without<T>(s: seq<T>, i: nat)
    requires i < |s|
    ensures multiset(s) - multiset{s[i]} == multiset(s[..i] + s[i + 1..])
  {
    assert s == s[..i] + [s[i]] + s[i + 1..];
  }

  lemma {:induction false} SumWithout<T>(s: seq<T>, i: nat, f: T -> real)
    requires i < |s|
    ensures SumOver(s, f) == SumOver(s[..i] + s[i + 1..], f) + f(s[i])
  {
    var n := |s| - 1;
    if i == n {
      assert s[..i] + s[i + 1..] == s[..n];
    } else {
      var t := s[..n];
      SumWithout(t, i, f);
      assert s[..i] + s[i + 1..] == t[..i] + t[i + 1..] + [s[n]];
      LastTerm(t[..i] + t[i + 1..], s[n], f);
    }
  }

  lemma {:induction false} LastTerm<T>(s: seq<T>, x: T, f: T -> real)
    ensures SumOver(s + [x], f) == SumOver(s, f) + f(x)
  {
    assert (s + [x])[..|s|] == s;
  }

  /** A sum does not depend on the order of its terms. */
  lemma {:induction false} SumPermutes<T>(a: seq<T>, b: seq<T>, f: T -> real)
    requires multiset(a) == multiset(b)
    ensures SumOver(a, f) == SumOver(b, f)
  {
    if a == [] {
      assert |multiset(b)| == 0;
    } else {
      var n := |a| - 1;
      assert a[n] in multiset(a);
      assert a[n] in b;
      var i :| 0 <= i < |b| && b[i] == a[n];
      Without(a, n);
      Without(b, i);
      assert a[..n] + a[n + 1..] == a[..n];
      SumPermutes(a[..n], b[..i] + b[i + 1..], f);
      SumWithout(b, i, f);
    }
  }

  // ------------------------------------------------------------------ mid-ranks

  function Range(n: nat): (r: seq<nat>)
    ensures |r| == n && forall i | 0 <= i < n :: r[i] == i
  {
    if n == 0 then [] else Range(n - 1) + [n - 1]
  }

  function At(xs: seq<real>, i: nat): real {
    if i < |xs| then xs[i] else 0.0
  }

  /** What `y` contributes to the rank of `x`: it is below, tied, or above. */
  function Score(y: real, x: real): real {
    if y < x then 1.0 else if y == x then 0.5 else 0.0
  }

  /** The scores of the first `m` values against value `i`. */
  function ScoreAgainst(xs: seq<real>, m: nat, i: nat): real {
    SumOver(Range(m), (j: nat) => Score(At(xs, j), At(xs, i)))
  }

  /** The mid-rank: the number of smaller values plus half of the tied ones, plus a half. */
  function MidRank(xs: seq<real>, i: nat): real {
    ScoreAgainst(xs, |xs|, i) + 0.5
  }

  /** The indices from the smallest value to the largest, ties in index order. */
  function OrderOf(xs: seq<real>): seq<nat> {
    Arrange(Range(|xs|), (i: nat, j: nat) => At(xs, i) < At(xs, j))
  }

  lemma {:induction false} OrderSorts(xs: seq<real>)
    ensures multiset(OrderOf(xs)) == multiset(Range(|xs|))
    ensures forall p, q | 0 <= p < q < |OrderOf(xs)| :: At(xs, OrderOf(xs)[p]) <= At(xs, OrderOf(xs)[q])
  {
    var before := (i: nat, j: nat) => At(xs, i) < At(xs, j);
    ArrangeIsPermutation(Range(|xs|), before);
    ArrangeIsArranged(Range(|xs|), before);
    forall p, q | 0 <= p < q < |OrderOf(xs)| ensures At(xs, OrderOf(xs)[p]) <= At(xs, OrderOf(xs)[q]) {
      assert !before(OrderOf(xs)[q], OrderOf(xs)[p]);
    }
  }

  lemma {:induction false} OrderIndexes(xs: seq<real>)
    ensures |OrderOf(xs)| == |xs|
    ensures forall p | 0 <= p < |xs| :: OrderOf(xs)[p] < |xs|
    ensures forall i | 0 <= i < |xs| :: i in OrderOf(xs)
  {
    OrderSorts(xs);
    var order, range := OrderOf(xs), Range(|xs|);
    assert |multiset(order)| == |multiset(range)|;
    forall p | 0 <= p < |xs| ensures order[p] < |xs| {
      assert order[p] in multiset(order);
      assert order[p] in range;
    }
    forall i | 0 <= i < |xs| ensures i in order {
      assert range[i] == i;
      assert i in multiset(range);
    }
  }

  /** The values at places `i..j + 1` of the order are one group of ties. */
  ghost predicate IsGroup(xs: seq<real>, order: seq<nat>, i: nat, j: nat) {
    && i <= j < |order|
    && (forall p | 0 <= p < i :: At(xs, order[p]) < At(xs, order[i]))
    && (forall p | i <= p <= j :: At(xs, order[p]) == At(xs, order[i]))
    && (forall p | j < p < |order| :: At(xs, order[p]) > At(xs, order[i]))
  }

  /** The sum over the places from `lo` to `hi`. */
  function SumPart(s: seq<nat>, lo: nat, hi: nat, f: nat -> real): real
    requires lo <= hi <= |s|
  {
    if lo == hi then 0.0 else SumPart(s, lo, hi - 1, f) + f(s[hi - 1])
  }

  lemma {:induction false} SumPartSplits(s: seq<nat>, lo: nat, mid: nat, hi: nat, f: nat -> real)
    requires lo <= mid <= hi <= |s|
    ensures SumPart(s, lo, hi, f) == SumPart(s, lo, mid, f) + SumPart(s, mid, hi, f)
  {
    if mid < hi { SumPartSplits(s, lo, mid, hi - 1, f); }
  }

  lemma {:induction false} SumPartPrefix(s: seq<nat>, n: nat, f: nat -> real)
    requires n <= |s|
    ensures SumPart(s, 0, n, f) == SumOver(s[..n], f)
  {
    if n > 0 {
      SumPartPrefix(s, n - 1, f);
      TakeStep(s, n - 1);
    }
  }

  lemma {:induction false} SumPartConstant(s: seq<nat>, lo: nat, hi: nat, f: nat -> real, c: real)
    requires lo <= hi <= |s| && forall p | lo <= p < hi :: f(s[p]) == c
    ensures SumPart(s, lo, hi, f) == c * (hi - lo) as real
  {
    if lo < hi { SumPartConstant(s, lo, hi - 1, f, c); }
  }

  lemma {:induction false} ThreeGroups(s: seq<nat>, f: nat -> real, i: nat, j: nat)
    requires i <= j < |s|
    requires forall p | 0 <= p < i :: f(s[p]) == 1.0
    requires forall p | i <= p < j + 1 :: f(s[p]) == 0.5
    requires forall p | j + 1 <= p < |s| :: f(s[p]) == 0.0
    ensures SumOver(s, f) == (i + j) as real / 2.0 + 0.5
  {
    TakeAll(s);
    SumPartPrefix(s, |s|, f);
    SumPartSplits(s, 0, i, |s|, f);
    SumPartSplits(s, i, j + 1, |s|, f);
    SumPartConstant(s, 0, i, f, 1.0);
    SumPartConstant(s, i, j + 1, f, 0.5);
    SumPartConstant(s, j + 1, |s|, f, 0.0);
  }

  /** A group of ties gets the mean of its places, counted from 1. */
  lemma {:induction false} GroupRank(xs: seq<real>, i: nat, j: nat, p: nat)
    requires IsGroup(xs, OrderOf(xs), i, j) && i <= p <= j
    ensures MidRank(xs, OrderOf(xs)[p]) == (i + j) as real / 2.0 + 1.0
  {
    var order := OrderOf(xs);
    var f := (k: nat) => Score(At(xs, k), At(xs, order[p]));
    OrderSorts(xs);
    SumPermutes(order, Range(|xs|), f);
    ThreeGroups(order, f, i, j);
  }

  ghost predicate Placed(out: array<real>, xs: seq<real>, i: nat)
    reads out
  {
    i < out.Length && out[i] == MidRank(xs, i)
  }

  /** One group of ties: its places from `i` to `j` all get their mean. */
  method FillGroup(out: array<real>, xs: seq<real>, order: seq<nat>, i: nat, j: nat)
    requires order == OrderOf(xs) && IsGroup(xs, order, i, j) && out.Length == |xs|
    modifies out
    ensures forall p | 0 <= p <= j :: old(p < i ==> Placed(out, xs, order[p])) ==> Placed(out, xs, order[p])
  {
    OrderIndexes(xs);
    var r := (i + j) as real / 2.0 + 1.0;
    for k := i to j + 1
      invariant forall p | 0 <= p < k :: old(p < i ==> Placed(out, xs, order[p])) ==> Placed(out, xs, order[p])
    {
      GroupRank(xs, i, j, k);
      out[order[k]] := r;
    }
  }

  method Ranks(xs: seq<real>) returns (out: array<real>)
    ensures fresh(out) && out.Length == |xs|
    ensures forall k | 0 <= k < |xs| :: Placed(out, xs, k)
  {
    var order := OrderOf(xs);
    OrderIndexes(xs);
    OrderSorts(xs);
    out := new real[|xs|](_ => 0.0);
    var i := 0;
    while i < |order|
      invariant 0 <= i <= |order|
      invariant forall p | 0 <= p < i :: Placed(out, xs, order[p])
      invariant forall p | 0 <= p < i < |order| :: At(xs, order[p]) < At(xs, order[i])
    {
      var j := GroupEnd(xs, order, i);
      FillGroup(out, xs, order, i, j);
      i := j + 1;
    }
    forall k | 0 <= k < |xs| ensures Placed(out, xs, k) {
      assert k in order;
    }
  }

  method GroupEnd(xs: seq<real>, order: seq<nat>, i: nat) returns (j: nat)
    requires i < |order|
    requires forall p, q | 0 <= p < q < |order| :: At(xs, order[p]) <= At(xs, order[q])
    requires forall p | 0 <= p < i :: At(xs, order[p]) < At(xs, order[i])
    ensures IsGroup(xs, order, i, j)
  {
    j := i;
    while j + 1 < |order| && At(xs, order[j + 1]) == At(xs, order[i])
      invariant i <= j < |order|
      invariant forall p | i <= p <= j :: At(xs, order[p]) == At(xs, order[i])
    {
      j := j + 1;
    }
  }

  // ------------------------------------------------------------------ what ranks keep

  lemma {:induction false} SumOrdered<T>(s: seq<T>, f: T -> real, g: T -> real)
    requires forall x | x in s :: f(x) <= g(x)
    ensures SumOver(s, f) <= SumOver(s, g)
    ensures (exists x :: x in s && f(x) < g(x)) ==> SumOver(s, f) < SumOver(s, g)
  {
    if s != [] {
      var n := |s| - 1;
      SumOrdered(s[..n], f, g);
      assert s == s[..n] + [s[n]];
      if x :| x in s && f(x) < g(x) { assert x in s[..n] || x == s[n]; }
    }
  }

  /** Ranks order exactly as the values do: equal for equal values, larger for larger ones. */
  lemma {:induction false} RanksPreserveOrder(xs: seq<real>, i: nat, j: nat)
    requires i < |xs| && j < |xs|
    ensures MidRank(xs, i) < MidRank(xs, j) <==> xs[i] < xs[j]
    ensures MidRank(xs, i) == MidRank(xs, j) <==> xs[i] == xs[j]
  {
    if xs[i] < xs[j] {
      RankRises(xs, i, j);
    } else if xs[j] < xs[i] {
      RankRises(xs, j, i);
    }
  }

  lemma {:induction false} RankRises(xs: seq<real>, i: nat, j: nat)
    requires i < |xs| && j < |xs| && xs[i] < xs[j]
    ensures MidRank(xs, i) < MidRank(xs, j)
  {
    var range := Range(|xs|);
    var f := (k: nat) => Score(At(xs, k), At(xs, i));
    var g := (k: nat) => Score(At(xs, k), At(xs, j));
    assert range[i] in range && f(i) < g(i);
    SumOrdered(range, f, g);
  }

  /** Only the order of the values matters: a strictly increasing rescaling changes no rank. */
  lemma {:induction false} RanksIgnoreScale(xs: seq<real>, ys: seq<real>, i: nat)
    requires |xs| == |ys| && i < |xs|
    requires forall j, k | 0 <= j < |xs| && 0 <= k < |xs| :: xs[j] < xs[k] <==> ys[j] < ys[k]
    ensures MidRank(xs, i) == MidRank(ys, i)
  {
    SumSame(Range(|xs|), (j: nat) => Score(At(xs, j), At(xs, i)), (j: nat) => Score(At(ys, j), At(ys, i)));
  }

  /** The scores of the first `m` values against each other. */
  function AllScores(xs: seq<real>, m: nat, n: nat): real {
    SumOver(Range(n), (i: nat) => ScoreAgainst(xs, m, i))
  }

  lemma {:induction false} AllScoresStep(xs: seq<real>, m: nat, n: nat)
    ensures AllScores(xs, m + 1, n) == AllScores(xs, m, n) + SumOver(Range(n), (i: nat) => Score(At(xs, m), At(xs, i)))
  {
    if n > 0 { AllScoresStep(xs, m, n - 1); }
  }

  /** Two values score one between them. */
  lemma {:induction false} MirroredScores(xs: seq<real>, m: nat, n: nat)
    ensures ScoreAgainst(xs, n, m) + SumOver(Range(n), (i: nat) => Score(At(xs, m), At(xs, i))) == n as real
  {
    if n > 0 { MirroredScores(xs, m, n - 1); }
  }

  lemma {:induction false} AllScoresGrow(xs: seq<real>, n: nat)
    ensures AllScores(xs, n + 1, n + 1) == AllScores(xs, n, n) + n as real + 0.5
  {
    AllScoresStep(xs, n, n);
    MirroredScores(xs, n, n);
    assert ScoreAgainst(xs, n + 1, n) == ScoreAgainst(xs, n, n) + 0.5;
    assert AllScores(xs, n + 1, n + 1) == AllScores(xs, n + 1, n) + ScoreAgainst(xs, n + 1, n);
  }

  lemma {:induction false} ScoresPairUp(xs: seq<real>, m: nat)
    ensures AllScores(xs, m, m) == (m * m) as real / 2.0
  {
    if m > 0 {
      ScoresPairUp(xs, m - 1);
      AllScoresGrow(xs, m - 1);
      HalfSquare(m - 1);
    }
  }

  lemma {:induction false} HalfSquare(n: nat)
    ensures ((n + 1) * (n + 1)) as real / 2.0 == (n * n) as real / 2.0 + n as real + 0.5
  {
    assert (n + 1) * (n + 1) == n * n + 2 * n + 1;
  }

  function RankSum(xs: seq<real>): real {
    SumOver(Range(|xs|), (i: nat) => MidRank(xs, i))
  }

  lemma {:induction false} RankSumPrefix(xs: seq<real>, n: nat)
    ensures SumOver(Range(n), (i: nat) => MidRank(xs, i)) == AllScores(xs, |xs|, n) + n as real / 2.0
  {
    if n > 0 { RankSumPrefix(xs, n - 1); }
  }

  /** The ranks always sum to n(n + 1)/2, ties or no ties. */
  lemma {:induction false} RanksSum(xs: seq<real>)
    ensures RankSum(xs) == (|xs| * (|xs| + 1)) as real / 2.0
  {
    ScoresPairUp(xs, |xs|);
    RankSumPrefix(xs, |xs|);
    assert |xs| * (|xs| + 1) == |xs| * |xs| + |xs|;
  }
}
