/** harness/redattrib.py, the Fisher exact test, in exact arithmetic. */
module RedAttribFisher {
  import opened Text

  /** `math.comb`, by Pascal's rule. */
  function Comb(n: nat, k: nat): nat {
    if k == 0 then 1 else if n == 0 then 0 else Comb(n - 1, k - 1) + Comb(n - 1, k)
  }

  function Factorial(n: nat): (f: nat)
    ensures f > 0
  {
    if n == 0 then 1 else n * Factorial(n - 1)
  }

  lemma {:induction false} CombBeyond(n: nat, k: nat)
    ensures k > n ==> Comb(n, k) == 0
    ensures k <= n ==> Comb(n, k) > 0
  {
    if n > 0 && k > 0 {
      CombBeyond(n - 1, k - 1);
      CombBeyond(n - 1, k);
    }
  }

  lemma {:induction false} CombFactorial(n: nat, k: nat)
    requires k <= n
    ensures Comb(n, k) * (Factorial(k) * Factorial(n - k)) == Factorial(n)
  {
    if k == 0 {
    } else if k == n {
      CombFactorial(n - 1, n - 1);
      CombBeyond(n - 1, n);
      assert Comb(n, n) == Comb(n - 1, n - 1);
      Scale(Comb(n, n), Factorial(n - 1) * Factorial(0), Factorial(n - 1), n);
    } else {
      CombFactorial(n - 1, k - 1);
      CombFactorial(n - 1, k);
      var a, b := Comb(n - 1, k - 1), Comb(n - 1, k);
      var f, g := Factorial(k - 1), Factorial(n - k - 1);
      assert Factorial(k) == k * f && Factorial(n - k) == (n - k) * g;
      Pascal(a, b, f, g, k, n - k, Factorial(n - 1));
    }
  }

  lemma {:induction false} Scale(a: int, b: int, c: int, n: int)
    requires a * b == c
    ensures a * (n * b) == n * c
  {
    assert a * (n * b) == n * (a * b);
  }

  /** The step of the factorial formula, with the products named. */
  lemma {:induction false} Pascal(a: int, b: int, f: int, g: int, k: int, m: int, top: int)
    requires a * (f * (m * g)) == top && b * ((k * f) * g) == top
    ensures (a + b) * ((k * f) * (m * g)) == (k + m) * top
  {
    assert (a + b) * ((k * f) * (m * g)) == k * (a * (f * (m * g))) + m * (b * ((k * f) * g));
  }

  lemma {:induction false} MulCancel(a: int, b: int, d: int)
    requires d > 0 && a * d == b * d
    ensures a == b
  {
    assert (a - b) * d == 0;
  }

  lemma {:induction false} CombSymmetric(n: nat, k: nat)
    requires k <= n
    ensures Comb(n, k) == Comb(n, n - k)
  {
    CombFactorial(n, k);
    CombFactorial(n, n - k);
    assert n - (n - k) == k;
    SwapCancel(Comb(n, k), Comb(n, n - k), Factorial(k), Factorial(n - k), Factorial(n));
  }

  lemma {:induction false} SwapCancel(a: int, b: int, f: int, g: int, top: int)
    requires a * (f * g) == top && b * (g * f) == top && f > 0 && g > 0
    ensures a == b
  {
    assert f * g == g * f && f * g > 0;
    MulCancel(a, b, f * g);
  }

  // ------------------------------------------------------------------ Vandermonde

  /** Ways to draw `c` of two groups with at most `x` from the first. */
  function Draws(r1: nat, r2: nat, c: nat, x: nat): nat
    requires x <= c
  {
    Comb(r1, x) * Comb(r2, c - x) + if x == 0 then 0 else Draws(r1, r2, c, x - 1)
  }

  lemma {:induction false} PascalTimes(r: nat, x: nat, w: nat)
    requires x > 0
    ensures Comb(r + 1, x) * w == Comb(r, x - 1) * w + Comb(r, x) * w
  {
  }

  lemma {:induction false} DrawsLast(r1: nat, r2: nat, c: nat, x: nat, w: nat)
    requires 0 < x <= c && w == Comb(r2, c - x)
    ensures Draws(r1, r2, c, x) == Comb(r1, x) * w + Draws(r1, r2, c, x - 1)
  {
  }

  lemma {:induction false} DrawsLess(r1: nat, r2: nat, c: nat, x: nat, w: nat)
    requires 0 < x <= c && w == Comb(r2, c - x)
    ensures Draws(r1, r2, c - 1, x - 1) == Comb(r1, x - 1) * w + if x == 1 then 0 else Draws(r1, r2, c - 1, x - 2)
  {
    assert c - 1 - (x - 1) == c - x;
  }

  lemma {:induction false} DrawsPascal(r1: nat, r2: nat, c: nat, x: nat)
    requires x <= c
    ensures Draws(r1 + 1, r2, c, x) == Draws(r1, r2, c, x) + if x == 0 then 0 else Draws(r1, r2, c - 1, x - 1)
  {
    if x > 0 {
      var w := Comb(r2, c - x);
      DrawsPascal(r1, r2, c, x - 1);
      DrawsLast(r1 + 1, r2, c, x, w);
      DrawsLast(r1, r2, c, x, w);
      DrawsLess(r1, r2, c, x, w);
      PascalTimes(r1, x, w);
    }
  }

  lemma {:induction false} DrawsFromOne(r2: nat, c: nat, x: nat)
    requires x <= c
    ensures Draws(0, r2, c, x) == Comb(r2, c)
  {
    if x > 0 {
      DrawsFromOne(r2, c, x - 1);
      assert Comb(0, x) == 0;
    }
  }

  lemma {:induction false} Vandermonde(r1: nat, r2: nat, c: nat)
    ensures Draws(r1, r2, c, c) == Comb(r1 + r2, c)
  {
    if r1 == 0 {
      DrawsFromOne(r2, c, c);
    } else {
      DrawsPascal(r1 - 1, r2, c, c);
      Vandermonde(r1 - 1, r2, c);
      if c > 0 { Vandermonde(r1 - 1, r2, c - 1); }
    }
  }

  // ------------------------------------------------------------------ the test

  /** The hypergeometric probability of `x` in the first cell, given the margins. */
  function Prob(r1: nat, r2: nat, c: nat, x: int): real
    requires c <= r1 + r2
  {
    CombBeyond(r1 + r2, c);
    if 0 <= x <= c then (Comb(r1, x) * Comb(r2, c - x)) as real / Comb(r1 + r2, c) as real else 0.0
  }

  function Lo(r1: nat, r2: nat, c: nat): nat {
    if c > r2 then c - r2 else 0
  }

  function Hi(r1: nat, r2: nat, c: nat): nat {
    if r1 < c then r1 else c
  }

  /** Sum of `f(x)` for `lo <= x < hi`. */
  function Sum(f: int -> real, lo: int, hi: int): real
    decreases hi - lo
  {
    if lo >= hi then 0.0 else Sum(f, lo, hi - 1) + f(hi - 1)
  }

  function Kept(r1: nat, r2: nat, c: nat, tol: real, x: int): real
    requires c <= r1 + r2
  {
    if Prob(r1, r2, c, x) <= tol then Prob(r1, r2, c, x) else 0.0
  }

  const SLACK := 1.000000001

  /** The terms no likelier than the observed table. */
  function TailSum(r1: nat, r2: nat, c: nat, a: int): real
    requires c <= r1 + r2
  {
    var tol := Prob(r1, r2, c, a) * SLACK;
    Sum(x => Kept(r1, r2, c, tol, x), Lo(r1, r2, c), Hi(r1, r2, c) + 1)
  }

  /** The two-sided p of `[[a, b], [c, d]]`; none for the empty table. */
  function FisherExact(a: nat, b: nat, c: nat, d: nat): Option<real> {
    if a + b + c + d == 0 then None
    else
      var p := TailSum(a + b, c + d, a + c, a);
      Some(if p < 1.0 then p else 1.0)
  }

  lemma {:induction false} ProbNonNegative(r1: nat, r2: nat, c: nat, x: int)
    requires c <= r1 + r2
    ensures Prob(r1, r2, c, x) >= 0.0
  {
    CombBeyond(r1 + r2, c);
    if 0 <= x <= c { Quotient(Comb(r1, x) * Comb(r2, c - x), Comb(r1 + r2, c)); }
  }

  lemma {:induction false} Quotient(a: nat, b: nat)
    requires b > 0
    ensures a as real / b as real >= 0.0
  {
  }

  /** Outside the range of the loop the terms vanish. */
  lemma {:induction false} ProbOutside(r1: nat, r2: nat, c: nat, x: int)
    requires c <= r1 + r2 && (x < Lo(r1, r2, c) || x > Hi(r1, r2, c))
    ensures Prob(r1, r2, c, x) == 0.0
  {
    if 0 <= x <= c {
      CombBeyond(r1, x);
      CombBeyond(r2, c - x);
      CombBeyond(r1 + r2, c);
      assert Comb(r1, x) * Comb(r2, c - x) == 0;
    }
  }

  function DrawsBefore(r1: nat, r2: nat, c: nat, x: nat): int
    requires x <= c
  {
    if x == 0 then 0 else Draws(r1, r2, c, x - 1)
  }

  lemma {:induction false} ProbSumStep(r1: nat, r2: nat, c: nat, x: nat)
    requires c <= r1 + r2 && x <= c && Comb(r1 + r2, c) > 0
    ensures var term := Draws(r1, r2, c, x) - DrawsBefore(r1, r2, c, x);
            Sum(y => Prob(r1, r2, c, y), 0, x + 1)
            == Sum(y => Prob(r1, r2, c, y), 0, x) + term as real / Comb(r1 + r2, c) as real
  {
    var f := y => Prob(r1, r2, c, y);
    assert f(x) == (Comb(r1, x) * Comb(r2, c - x)) as real / Comb(r1 + r2, c) as real;
  }

  lemma {:induction false} SumIsDraws(r1: nat, r2: nat, c: nat, x: nat)
    requires c <= r1 + r2 && x <= c
    ensures Comb(r1 + r2, c) > 0
    ensures Sum(y => Prob(r1, r2, c, y), 0, x + 1) == Draws(r1, r2, c, x) as real / Comb(r1 + r2, c) as real
  {
    CombBeyond(r1 + r2, c);
    if x > 0 {
      SumIsDraws(r1, r2, c, x - 1);
    }
    MoreDraws(r1, r2, c, x);
  }

  lemma {:induction false} MoreDraws(r1: nat, r2: nat, c: nat, x: nat)
    requires c <= r1 + r2 && x <= c && Comb(r1 + r2, c) > 0
    requires x > 0 ==>
      Sum(y => Prob(r1, r2, c, y), 0, x) == Draws(r1, r2, c, x - 1) as real / Comb(r1 + r2, c) as real
    ensures Sum(y => Prob(r1, r2, c, y), 0, x + 1) == Draws(r1, r2, c, x) as real / Comb(r1 + r2, c) as real
  {
    var before := DrawsBefore(r1, r2, c, x);
    ProbSumStep(r1, r2, c, x);
    AddQuotients(before, Draws(r1, r2, c, x) - before, Comb(r1 + r2, c));
    assert x == 0 ==> Sum(y => Prob(r1, r2, c, y), 0, x) == 0.0;
  }

  lemma {:induction false} AddQuotients(a: nat, b: nat, d: nat)
    requires d > 0
    ensures a as real / d as real + b as real / d as real == (a + b) as real / d as real
  {
  }

  lemma {:induction false} SumSame(f: int -> real, g: int -> real, lo: int, hi: int)
    requires forall x | lo <= x < hi :: f(x) == g(x)
    ensures Sum(f, lo, hi) == Sum(g, lo, hi)
    decreases hi - lo
  {
    if lo < hi { SumSame(f, g, lo, hi - 1); }
  }

  lemma {:induction false} SumSplit(f: int -> real, lo: int, mid: int, hi: int)
    requires lo <= mid <= hi
    ensures Sum(f, lo, hi) == Sum(f, lo, mid) + Sum(f, mid, hi)
    decreases hi - mid
  {
    if mid < hi { SumSplit(f, lo, mid, hi - 1); }
  }

  lemma {:induction false} SumZero(f: int -> real, lo: int, hi: int)
    requires forall x | lo <= x < hi :: f(x) == 0.0
    ensures Sum(f, lo, hi) == 0.0
    decreases hi - lo
  {
    if lo < hi { SumZero(f, lo, hi - 1); }
  }

  lemma {:induction false} SumOrder(f: int -> real, g: int -> real, lo: int, hi: int)
    requires forall x | lo <= x < hi :: 0.0 <= f(x) <= g(x)
    ensures 0.0 <= Sum(f, lo, hi) <= Sum(g, lo, hi)
    decreases hi - lo
  {
    if lo < hi { SumOrder(f, g, lo, hi - 1); }
  }

  lemma {:induction false} SumHolds(f: int -> real, lo: int, hi: int, x: int)
    requires lo <= x < hi && forall y | lo <= y < hi :: f(y) >= 0.0
    ensures Sum(f, lo, hi) >= f(x)
    decreases hi - lo
  {
    SumOrder(f, f, lo, hi - 1);
    if x < hi - 1 { SumHolds(f, lo, hi - 1, x); }
  }

  /** Summing backwards. */
  lemma {:induction false} SumReflects(f: int -> real, g: int -> real, s: int, lo: int, hi: int)
    requires forall x | lo <= x < hi :: f(x) == g(s - x)
    ensures Sum(f, lo, hi) == Sum(g, s - hi + 1, s - lo + 1)
    decreases hi - lo
  {
    if lo < hi {
      SumReflects(f, g, s, lo, hi - 1);
      SumSplit(g, s - hi + 1, s - hi + 2, s - lo + 1);
      assert Sum(g, s - hi + 1, s - hi + 2) == Sum(g, s - hi + 1, s - hi + 1) + g(s - hi + 1);
    }
  }

  /** Vandermonde's identity, as the test needs it: the terms over the loop's range sum to one. */
  lemma {:induction false} TermsSumToOne(r1: nat, r2: nat, c: nat)
    requires c <= r1 + r2
    ensures Lo(r1, r2, c) <= Hi(r1, r2, c)
    ensures Sum(x => Prob(r1, r2, c, x), Lo(r1, r2, c), Hi(r1, r2, c) + 1) == 1.0
  {
    var f := x => Prob(r1, r2, c, x);
    var lo, hi := Lo(r1, r2, c), Hi(r1, r2, c);
    AllTermsSumToOne(r1, r2, c);
    SumSplit(f, 0, lo, c + 1);
    SumSplit(f, lo, hi + 1, c + 1);
    LowTermsVanish(r1, r2, c);
    HighTermsVanish(r1, r2, c);
  }

  lemma {:induction false} AllTermsSumToOne(r1: nat, r2: nat, c: nat)
    requires c <= r1 + r2
    ensures Sum(x => Prob(r1, r2, c, x), 0, c + 1) == 1.0
  {
    SumIsDraws(r1, r2, c, c);
    Vandermonde(r1, r2, c);
    SelfQuotient(Comb(r1 + r2, c));
  }

  lemma {:induction false} SelfQuotient(n: nat)
    requires n > 0
    ensures n as real / n as real == 1.0
  {
  }

  lemma {:induction false} LowTermsVanish(r1: nat, r2: nat, c: nat)
    requires c <= r1 + r2
    ensures Sum(x => Prob(r1, r2, c, x), 0, Lo(r1, r2, c)) == 0.0
  {
    var f := x => Prob(r1, r2, c, x);
    forall x | 0 <= x < Lo(r1, r2, c) ensures f(x) == 0.0 { ProbOutside(r1, r2, c, x); }
    SumZero(f, 0, Lo(r1, r2, c));
  }

  lemma {:induction false} HighTermsVanish(r1: nat, r2: nat, c: nat)
    requires c <= r1 + r2
    ensures Sum(x => Prob(r1, r2, c, x), Hi(r1, r2, c) + 1, c + 1) == 0.0
  {
    var f := x => Prob(r1, r2, c, x);
    forall x | Hi(r1, r2, c) + 1 <= x < c + 1 ensures f(x) == 0.0 { ProbOutside(r1, r2, c, x); }
    SumZero(f, Hi(r1, r2, c) + 1, c + 1);
  }

  /** The p-value is at least the observed table's probability and at most one, and the `min` never
      bites: the sum itself is at most one. */
  lemma {:induction false} FisherRange(a: nat, b: nat, c: nat, d: nat)
    requires a + b + c + d > 0
    ensures var r1, r2, c1 := a + b, c + d, a + c;
            && FisherExact(a, b, c, d) == Some(TailSum(r1, r2, c1, a))
            && 0.0 < Prob(r1, r2, c1, a) <= TailSum(r1, r2, c1, a) <= 1.0
  {
    ObservedIsPossible(a, b, c, d);
    TailIsBetween(a + b, c + d, a + c, a);
  }

  lemma {:induction false} TailIsBetween(r1: nat, r2: nat, c1: nat, a: nat)
    requires c1 <= r1 + r2 && Lo(r1, r2, c1) <= a <= Hi(r1, r2, c1)
    ensures Prob(r1, r2, c1, a) <= TailSum(r1, r2, c1, a) <= 1.0
  {
    var lo, hi := Lo(r1, r2, c1), Hi(r1, r2, c1);
    var tol := Prob(r1, r2, c1, a) * SLACK;
    var f, kept := x => Prob(r1, r2, c1, x), x => Kept(r1, r2, c1, tol, x);
    TermsSumToOne(r1, r2, c1);
    forall x ensures 0.0 <= kept(x) <= f(x) { ProbNonNegative(r1, r2, c1, x); }
    SumOrder(kept, f, lo, hi + 1);
    ProbNonNegative(r1, r2, c1, a);
    SumHolds(kept, lo, hi + 1, a);
  }

  /** The probabilities of the tables likelier than the observed one, beyond the tolerance. */
  function LikelierSum(r1: nat, r2: nat, c: nat, a: int): real
    requires c <= r1 + r2
  {
    Sum(x => if Likelier(r1, r2, c, a, x) then Prob(r1, r2, c, x) else 0.0, Lo(r1, r2, c), Hi(r1, r2, c) + 1)
  }

  predicate Likelier(r1: nat, r2: nat, c: nat, a: int, x: int)
    requires c <= r1 + r2
  {
    Prob(r1, r2, c, x) > Prob(r1, r2, c, a) * SLACK
  }

  lemma {:induction false} SumAdds(f: int -> real, g: int -> real, h: int -> real, lo: int, hi: int)
    requires forall x | lo <= x < hi :: f(x) + g(x) == h(x)
    ensures Sum(f, lo, hi) + Sum(g, lo, hi) == Sum(h, lo, hi)
    decreases hi - lo
  {
    if lo < hi { SumAdds(f, g, h, lo, hi - 1); }
  }

  lemma {:induction false} TailIsTheRest(r1: nat, r2: nat, c: nat, a: int)
    requires c <= r1 + r2
    ensures TailSum(r1, r2, c, a) + LikelierSum(r1, r2, c, a) == 1.0
  {
    var lo, hi, tol := Lo(r1, r2, c), Hi(r1, r2, c), Prob(r1, r2, c, a) * SLACK;
    TermsSumToOne(r1, r2, c);
    SumAdds(x => Kept(r1, r2, c, tol, x), x => if Likelier(r1, r2, c, a, x) then Prob(r1, r2, c, x) else 0.0,
            x => Prob(r1, r2, c, x), lo, hi + 1);
  }

  /** What the test leaves out: p and the probabilities of the likelier tables make one. */
  lemma {:induction false} LikelierTablesAreLeftOut(a: nat, b: nat, c: nat, d: nat)
    requires a + b + c + d > 0
    ensures var p := FisherExact(a, b, c, d);
            p.Some? && p.value + LikelierSum(a + b, c + d, a + c, a) == 1.0
  {
    FisherRange(a, b, c, d);
    TailIsTheRest(a + b, c + d, a + c, a);
  }

  /** And what it holds: each table no likelier than the observed one, beside the observed one itself. */
  lemma {:induction false} UnlikelyTablesAreIn(a: nat, b: nat, c: nat, d: nat, x: int)
    requires a + b + c + d > 0 && Lo(a + b, c + d, a + c) <= x <= Hi(a + b, c + d, a + c)
    requires !Likelier(a + b, c + d, a + c, a, x)
    ensures var p := FisherExact(a, b, c, d);
            p.Some? && p.value >= Prob(a + b, c + d, a + c, x) + if x == a then 0.0 else Prob(a + b, c + d, a + c, a)
  {
    var r1, r2, c1 := a + b, c + d, a + c;
    var lo, hi, tol := Lo(r1, r2, c1), Hi(r1, r2, c1), Prob(r1, r2, c1, a) * SLACK;
    var kept := y => Kept(r1, r2, c1, tol, y);
    FisherRange(a, b, c, d);
    forall y ensures kept(y) >= 0.0 { ProbNonNegative(r1, r2, c1, y); }
    assert kept(x) == Prob(r1, r2, c1, x) && kept(a) == Prob(r1, r2, c1, a);
    if x == a {
      SumHolds(kept, lo, hi + 1, a);
    } else {
      SumHoldsTwo(kept, lo, hi + 1, if x < a then x else a, if x < a then a else x);
    }
  }

  lemma {:induction false} SumHoldsTwo(f: int -> real, lo: int, hi: int, x: int, y: int)
    requires lo <= x < y < hi && forall z | lo <= z < hi :: f(z) >= 0.0
    ensures Sum(f, lo, hi) >= f(x) + f(y)
    decreases hi - lo
  {
    if y < hi - 1 { SumHoldsTwo(f, lo, hi - 1, x, y); } else { SumHolds(f, lo, hi - 1, x); }
  }

  lemma {:induction false} SumIsZero(f: int -> real, lo: int, hi: int)
    requires forall x | lo <= x < hi :: f(x) >= 0.0
    ensures Sum(f, lo, hi) == 0.0 <==> forall x | lo <= x < hi :: f(x) == 0.0
    decreases hi - lo
  {
    if lo < hi {
      SumIsZero(f, lo, hi - 1);
      SumOrder(f, f, lo, hi - 1);
    }
  }

  /** The p-value is 1 exactly when no table with these margins is likelier than the observed one. */
  lemma {:induction false} WhenPIsOne(a: nat, b: nat, c: nat, d: nat)
    requires a + b + c + d > 0
    ensures var r1, r2, c1 := a + b, c + d, a + c;
            FisherExact(a, b, c, d) == Some(1.0)
            <==> forall x | Lo(r1, r2, c1) <= x <= Hi(r1, r2, c1) :: Prob(r1, r2, c1, x) <= Prob(r1, r2, c1, a) * SLACK
  {
    var r1, r2, c1 := a + b, c + d, a + c;
    var lo, hi := Lo(r1, r2, c1), Hi(r1, r2, c1);
    var f := x => if Likelier(r1, r2, c1, a, x) then Prob(r1, r2, c1, x) else 0.0;
    LikelierTablesAreLeftOut(a, b, c, d);
    forall x ensures f(x) >= 0.0 && (f(x) == 0.0 <==> !Likelier(r1, r2, c1, a, x)) {
      ProbNonNegative(r1, r2, c1, x);
      ProbNonNegative(r1, r2, c1, a);
    }
    SumIsZero(f, lo, hi + 1);
    assert LikelierSum(r1, r2, c1, a) == Sum(f, lo, hi + 1);
    forall x | lo <= x <= hi
      ensures f(x) == 0.0 <==> Prob(r1, r2, c1, x) <= Prob(r1, r2, c1, a) * SLACK
    {
    }
  }

  /** Of two tables with the same margins, the less likely one has no larger p-value. */
  lemma {:induction false} LessLikelyIsNoLarger(a: nat, b: nat, c: nat, d: nat, a': nat, b': nat, c': nat, d': nat)
    requires a + b + c + d > 0 && a + b == a' + b' && c + d == c' + d' && a + c == a' + c'
    requires Prob(a + b, c + d, a + c, a) <= Prob(a + b, c + d, a + c, a')
    ensures FisherExact(a, b, c, d).Some? && FisherExact(a', b', c', d').Some?
    ensures FisherExact(a, b, c, d).value <= FisherExact(a', b', c', d').value
  {
    LikelierTablesAreLeftOut(a, b, c, d);
    LikelierTablesAreLeftOut(a', b', c', d');
    FewerLikelier(a + b, c + d, a + c, a, a');
  }

  lemma {:induction false} FewerLikelier(r1: nat, r2: nat, c: nat, a: int, a': int)
    requires c <= r1 + r2 && Prob(r1, r2, c, a) <= Prob(r1, r2, c, a')
    ensures LikelierSum(r1, r2, c, a') <= LikelierSum(r1, r2, c, a)
  {
    var f := x => if Likelier(r1, r2, c, a, x) then Prob(r1, r2, c, x) else 0.0;
    var g := x => if Likelier(r1, r2, c, a', x) then Prob(r1, r2, c, x) else 0.0;
    forall x ensures 0.0 <= g(x) <= f(x) { ProbNonNegative(r1, r2, c, x); }
    SumOrder(g, f, Lo(r1, r2, c), Hi(r1, r2, c) + 1);
  }

  /** In numbers: of the three tables with all margins 2, the two extreme ones make a third between them. */
  lemma {:induction false} SmallTable()
    ensures FisherExact(2, 0, 0, 2) == Some(1.0 / 3.0) && FisherExact(1, 1, 1, 1) == Some(1.0)
  {
    assert Comb(2, 0) == 1 && Comb(2, 1) == 2 && Comb(2, 2) == 1 && Comb(4, 2) == 6 by { SmallCombs(); }
    assert Prob(2, 2, 2, 0) == 1.0 / 6.0 && Prob(2, 2, 2, 1) == 4.0 / 6.0 && Prob(2, 2, 2, 2) == 1.0 / 6.0;
    SmallSum(2, 1.0 / 6.0 * SLACK);
    SmallSum(1, 4.0 / 6.0 * SLACK);
  }

  lemma {:induction false} SmallSum(a: int, tol: real)
    ensures var f := x => Kept(2, 2, 2, tol, x); Sum(f, 0, 3) == f(0) + f(1) + f(2)
  {
    var f := x => Kept(2, 2, 2, tol, x);
    assert Sum(f, 0, 0) == 0.0 && Sum(f, 0, 1) == f(0) && Sum(f, 0, 2) == f(0) + f(1);
  }

  lemma {:induction false} SmallCombs()
    ensures Comb(2, 0) == 1 && Comb(2, 1) == 2 && Comb(2, 2) == 1 && Comb(4, 2) == 6
  {
    assert Comb(1, 0) == 1 && Comb(1, 1) == 1 && Comb(1, 2) == 0;
    assert Comb(3, 1) == 3 && Comb(3, 2) == 3;
  }

  lemma {:induction false} ObservedIsPossible(a: nat, b: nat, c: nat, d: nat)
    ensures Prob(a + b, c + d, a + c, a) > 0.0
  {
    CombBeyond(a + b, a);
    CombBeyond(c + d, c);
    CombBeyond(a + b + (c + d), a + c);
    Product(Comb(a + b, a), Comb(c + d, c));
    PositiveQuotient(Comb(a + b, a) * Comb(c + d, c), Comb(a + b + (c + d), a + c));
  }

  lemma {:induction false} Product(a: int, b: int)
    requires a > 0 && b > 0
    ensures a * b > 0
  {
  }

  lemma {:induction false} PositiveQuotient(a: nat, b: nat)
    requires a > 0 && b > 0
    ensures a as real / b as real > 0.0
  {
  }

  // ------------------------------------------------------------------ what the p-value does not see

  lemma {:induction false} KeptFollowsProb(r1: nat, r2: nat, c: nat, q1: nat, q2: nat, k: nat, tol: real, x: int,
      y: int)
    requires c <= r1 + r2 && k <= q1 + q2 && Prob(q1, q2, k, y) == Prob(r1, r2, c, x)
    ensures Kept(q1, q2, k, tol, y) == Kept(r1, r2, c, tol, x)
  {
  }

  lemma {:induction false} RowTail(r1: nat, r2: nat, c: nat, a: int)
    requires c <= r1 + r2
    ensures TailSum(r2, r1, c, c - a) == TailSum(r1, r2, c, a)
  {
    RowTerm(r1, r2, c, a);
    var tol := Prob(r1, r2, c, a) * SLACK;
    var f, g := x => Kept(r1, r2, c, tol, x), x => Kept(r2, r1, c, tol, x);
    forall x ensures f(x) == g(c - x) {
      RowTerm(r1, r2, c, x);
      KeptFollowsProb(r1, r2, c, r2, r1, c, tol, x, c - x);
    }
    SumReflects(f, g, c, Lo(r1, r2, c), Hi(r1, r2, c) + 1);
  }

  /** Swapping the rows reads the terms backwards: `x` becomes `c1 - x`. */
  lemma {:induction false} RowSwap(a: nat, b: nat, c: nat, d: nat)
    ensures FisherExact(c, d, a, b) == FisherExact(a, b, c, d)
  {
    RowTail(a + b, c + d, a + c, a);
  }

  lemma {:induction false} RowTerm(r1: nat, r2: nat, c: nat, x: int)
    requires c <= r1 + r2
    ensures Prob(r2, r1, c, c - x) == Prob(r1, r2, c, x)
  {
    if 0 <= x <= c { assert Comb(r1, x) * Comb(r2, c - x) == Comb(r2, c - x) * Comb(r1, x); }
  }

  lemma {:induction false} ColumnTail(r1: nat, r2: nat, c: nat, a: int)
    requires c <= r1 + r2 && Lo(r1, r2, c) <= a <= Hi(r1, r2, c)
    ensures TailSum(r1, r2, r1 + r2 - c, r1 - a) == TailSum(r1, r2, c, a)
  {
    var c2 := r1 + r2 - c;
    ColumnTerm(r1, r2, c, a);
    var tol, lo, hi := Prob(r1, r2, c, a) * SLACK, Lo(r1, r2, c), Hi(r1, r2, c);
    var f, g := x => Kept(r1, r2, c, tol, x), x => Kept(r1, r2, c2, tol, x);
    forall x | lo <= x < hi + 1 ensures f(x) == g(r1 - x) {
      ColumnTerm(r1, r2, c, x);
      KeptFollowsProb(r1, r2, c, r1, r2, c2, tol, x, r1 - x);
    }
    SumReflects(f, g, r1, lo, hi + 1);
  }

  /** Swapping the columns reads them backwards in the row: `x` becomes `r1 - x`. */
  lemma {:induction false} ColumnSwap(a: nat, b: nat, c: nat, d: nat)
    ensures FisherExact(b, a, d, c) == FisherExact(a, b, c, d)
  {
    ColumnTail(a + b, c + d, a + c, a);
  }

  lemma {:induction false} ColumnTerm(r1: nat, r2: nat, c: nat, x: int)
    requires c <= r1 + r2 && Lo(r1, r2, c) <= x <= Hi(r1, r2, c)
    ensures Prob(r1, r2, r1 + r2 - c, r1 - x) == Prob(r1, r2, c, x)
  {
    CombSymmetric(r1, x);
    CombSymmetric(r2, c - x);
    CombSymmetric(r1 + r2, c);
    assert r1 + r2 - c - (r1 - x) == r2 - (c - x);
  }

  lemma {:induction false} TransposeTail(r1: nat, r2: nat, c1: nat, c2: nat, a: int)
    requires r1 + r2 == c1 + c2 && Lo(r1, r2, c1) <= a <= Hi(r1, r2, c1)
    ensures TailSum(c1, c2, r1, a) == TailSum(r1, r2, c1, a)
  {
    TransposeTerm(r1, r2, c1, c2, a);
    var tol, lo, hi := Prob(r1, r2, c1, a) * SLACK, Lo(r1, r2, c1), Hi(r1, r2, c1);
    var f, g := x => Kept(r1, r2, c1, tol, x), x => Kept(c1, c2, r1, tol, x);
    forall x | lo <= x < hi + 1 ensures f(x) == g(x) {
      TransposeTerm(r1, r2, c1, c2, x);
      KeptFollowsProb(r1, r2, c1, c1, c2, r1, tol, x, x);
    }
    SumSame(f, g, lo, hi + 1);
  }

  /** Transposing keeps every term. */
  lemma {:induction false} Transpose(a: nat, b: nat, c: nat, d: nat)
    ensures FisherExact(a, c, b, d) == FisherExact(a, b, c, d)
  {
    TransposeTail(a + b, c + d, a + c, b + d, a);
  }

  /** Both sides are `r1! r2! c1! c2! / (n! x! (r1-x)! (c1-x)! (r2-c1+x)!)`. */
  lemma {:induction false} TransposeTerm(r1: nat, r2: nat, c1: nat, c2: nat, x: int)
    requires r1 + r2 == c1 + c2 && Lo(r1, r2, c1) <= x <= Hi(r1, r2, c1)
    ensures Prob(c1, c2, r1, x) == Prob(r1, r2, c1, x)
  {
    TransposeCross(r1, r2, c1, c2, x);
    CombBeyond(r1 + r2, c1);
    CombBeyond(r1 + r2, r1);
    var t, u := Comb(c1, x) * Comb(c2, r1 - x), Comb(r1, x) * Comb(r2, c1 - x);
    CrossQuotients(t, Comb(r1 + r2, r1), u, Comb(r1 + r2, c1));
  }

  lemma {:induction false} TransposeCross(r1: nat, r2: nat, c1: nat, c2: nat, x: nat)
    requires r1 + r2 == c1 + c2 && Lo(r1, r2, c1) <= x <= Hi(r1, r2, c1)
    ensures (Comb(c1, x) * Comb(c2, r1 - x)) * Comb(r1 + r2, c1) == (Comb(r1, x) * Comb(r2, c1 - x)) * Comb(r1 + r2, r1)
  {
    var n := r1 + r2;
    CombFactorial(r1, x);
    CombFactorial(r2, c1 - x);
    CombFactorial(n, r1);
    CombFactorial(c1, x);
    CombFactorial(c2, r1 - x);
    CombFactorial(n, c1);
    assert r2 - (c1 - x) == c2 - (r1 - x) && n - r1 == r2 && n - c1 == c2;
    CrossProducts(Comb(r1, x), Comb(r2, c1 - x), Comb(n, r1), Comb(c1, x), Comb(c2, r1 - x), Comb(n, c1),
                  Factorial(x), Factorial(r1 - x), Factorial(c1 - x), Factorial(r2 - (c1 - x)),
                  Factorial(r1), Factorial(r2), Factorial(c1), Factorial(c2), Factorial(n));
  }

  lemma {:induction false} CrossProducts(u: int, v: int, e: int, u': int, v': int, e': int, p: int, q: int, s: int,
      t: int, r1: int, r2: int, c1: int, c2: int, n: int)
    requires p > 0 && q > 0 && s > 0 && t > 0
    requires u * (p * q) == r1 && v * (s * t) == r2 && e * (r1 * r2) == n
    requires u' * (p * s) == c1 && v' * (q * t) == c2 && e' * (c1 * c2) == n
    ensures (u' * v') * e' == (u * v) * e
  {
    Seven(u, p * q, v, s * t, e);
    Seven(u', p * s, v', q * t, e');
    Reordered(p, q, s, t);
    MulCancel((u' * v') * e', (u * v) * e, (p * q) * (s * t));
  }

  lemma {:induction false} Reordered(p: int, q: int, s: int, t: int)
    requires p > 0 && q > 0 && s > 0 && t > 0
    ensures (p * q) * (s * t) == (p * s) * (q * t) > 0
  {
    Product(p, q);
    Product(s, t);
    Product(p * q, s * t);
  }

  lemma {:induction false} Seven(u: int, a: int, v: int, b: int, e: int)
    ensures ((u * v) * e) * (a * b) == e * ((u * a) * (v * b))
  {
  }

  lemma {:induction false} CrossQuotients(a: int, b: int, c: int, d: int)
    requires b > 0 && d > 0 && a * d == c * b
    ensures a as real / b as real == c as real / d as real
  {
    var x, y, z, w := a as real, b as real, c as real, d as real;
    assert x * w == z * y;
    assert x / y == (x * w) / (y * w);
    assert z / w == (z * y) / (w * y);
  }
}
