/** nuc/dose_response.py, `spearman`: Pearson's coefficient on mid-ranks. */
module DoseResponseSpearman {
  import opened DoseResponseRanks

  /** `Ratio` stands for `sxy / sqrt(sxx * syy)`. */
  datatype Rho = LengthMismatch | TooFew | Zero | Ratio(sxy: real, sxx: real, syy: real)

  /** The ranks of all values, in place. */
  function RanksOf(xs: seq<real>): (r: seq<real>)
    ensures |r| == |xs| && forall i | 0 <= i < |xs| :: r[i] == MidRank(xs, i)
  {
    seq(|xs|, i requires 0 <= i < |xs| => MidRank(xs, i))
  }

  function Mean(s: seq<real>): real
    requires s != []
  {
    SumOver(s, (x: real) => x) / |s| as real
  }

  function Product(x: real, y: real): real {
    x * y
  }

  /** The sum of products of deviations. */
  function Moment(a: seq<real>, ma: real, b: seq<real>, mb: real): real
    requires |a| == |b|
  {
    if a == [] then 0.0
    else
      var n := |a| - 1;
      Moment(a[..n], ma, b[..n], mb) + Product(a[n] - ma, b[n] - mb)
  }

  function SpearmanOf(xs: seq<real>, ys: seq<real>): Rho {
    if |xs| != |ys| then LengthMismatch
    else if |xs| < 3 then TooFew
    else
      var rx, ry := RanksOf(xs), RanksOf(ys);
      var mx, my := Mean(rx), Mean(ry);
      var sxx, syy := Moment(rx, mx, rx, mx), Moment(ry, my, ry, my);
      if sxx <= 0.0 || syy <= 0.0 then Zero else Ratio(Moment(rx, mx, ry, my), sxx, syy)
  }

  method Spearman(xs: seq<real>, ys: seq<real>) returns (rho: Rho)
    ensures rho == SpearmanOf(xs, ys)
  {
    if |xs| != |ys| {
      return LengthMismatch;
    }
    if |xs| < 3 {
      return TooFew;
    }
    var ranksX := Ranks(xs);
    var ranksY := Ranks(ys);
    var rx, ry := ranksX[..], ranksY[..];
    assert rx == RanksOf(xs) by {
      forall i | 0 <= i < |xs| ensures rx[i] == RanksOf(xs)[i] { assert Placed(ranksX, xs, i); }
    }
    assert ry == RanksOf(ys) by {
      forall i | 0 <= i < |ys| ensures ry[i] == RanksOf(ys)[i] { assert Placed(ranksY, ys, i); }
    }
    var mx, my := Mean(rx), Mean(ry);
    var sxy := Moment(rx, mx, ry, my);
    var sxx := Moment(rx, mx, rx, mx);
    var syy := Moment(ry, my, ry, my);
    if sxx <= 0.0 || syy <= 0.0 {
      return Zero;
    }
    rho := Ratio(sxy, sxx, syy);
  }

  // ------------------------------------------------------------------ the bound

  lemma {:induction false} SameSign(u: real, v: real)
    requires (u > 0.0 && v > 0.0) || (u < 0.0 && v < 0.0)
    ensures Product(u, v) > 0.0
  {
  }

  lemma {:induction false} Square(x: real)
    ensures Product(x, x) >= 0.0
    ensures Product(x, x) == 0.0 <==> x == 0.0
  {
    if x != 0.0 { SameSign(x, x); }
  }

  lemma {:induction false} Distribute(c: real, u: real, v: real)
    ensures Product(c, u + v) == Product(c, u) + Product(c, v)
  {
  }

  /** `c2 p - c1 s + q`, the quadratic whose coefficients are `c2 = t t` and `c1 = 2 t`. */
  function Quadratic(c2: real, p: real, c1: real, s: real, q: real): real {
    Product(c2, p) - Product(c1, s) + q
  }

  lemma {:induction false} SquareOfDifference(t: real, x: real, y: real)
    ensures Squared(t, x, y) == Quadratic(t * t, Product(x, x), 2.0 * t, Product(x, y), Product(y, y))
  {
    assert (t * x - y) * (t * x - y) == (t * x) * (t * x) - 2.0 * ((t * x) * y) + y * y;
    assert (t * x) * (t * x) == t * t * (x * x);
    assert 2.0 * ((t * x) * y) == 2.0 * t * (x * y);
  }

  lemma {:induction false} QuadraticAdds(c2: real, c1: real, p: real, s: real, q: real, p': real, s': real, q': real)
    ensures Quadratic(c2, p + p', c1, s + s', q + q') == Quadratic(c2, p, c1, s, q) + Quadratic(c2, p', c1, s', q')
  {
    Distribute(c2, p, p');
    Distribute(c1, s, s');
  }

  /** What the line of slope `t` through the means leaves of `b`: the sum of squared residuals. */
  function Residual(a: seq<real>, ma: real, b: seq<real>, mb: real, t: real): real
    requires |a| == |b|
  {
    if a == [] then 0.0
    else
      var n := |a| - 1;
      Residual(a[..n], ma, b[..n], mb, t) + Squared(t, a[n] - ma, b[n] - mb)
  }

  function Squared(t: real, x: real, y: real): real {
    Product(t * x - y, t * x - y)
  }

  ghost predicate OnLine(a: seq<real>, ma: real, b: seq<real>, mb: real, t: real)
    requires |a| == |b|
  {
    forall i | 0 <= i < |a| :: Product(t, a[i] - ma) == b[i] - mb
  }

  /** It is this quadratic in `t`. */
  lemma {:induction false} ResidualIsQuadratic(a: seq<real>, ma: real, b: seq<real>, mb: real, t: real)
    requires |a| == |b|
    ensures Residual(a, ma, b, mb, t)
         == Quadratic(t * t, Moment(a, ma, a, ma), 2.0 * t, Moment(a, ma, b, mb), Moment(b, mb, b, mb))
  {
    if a != [] {
      var n := |a| - 1;
      ResidualIsQuadratic(a[..n], ma, b[..n], mb, t);
      OneMoreResidual(Residual(a[..n], ma, b[..n], mb, t), t, Moment(a[..n], ma, a[..n], ma),
                      Moment(a[..n], ma, b[..n], mb), Moment(b[..n], mb, b[..n], mb), a[n] - ma, b[n] - mb);
    }
  }

  lemma {:induction false} OneMoreResidual(r: real, t: real, p: real, s: real, q: real, x: real, y: real)
    requires r == Quadratic(t * t, p, 2.0 * t, s, q)
    ensures r + Squared(t, x, y)
         == Quadratic(t * t, p + Product(x, x), 2.0 * t, s + Product(x, y), q + Product(y, y))
  {
    SquareOfDifference(t, x, y);
    QuadraticAdds(t * t, 2.0 * t, p, s, q, Product(x, x), Product(x, y), Product(y, y));
  }

  lemma {:induction false} ResidualNonnegative(a: seq<real>, ma: real, b: seq<real>, mb: real, t: real)
    requires |a| == |b|
    ensures Residual(a, ma, b, mb, t) >= 0.0
    ensures Residual(a, ma, b, mb, t) == 0.0 <==> OnLine(a, ma, b, mb, t)
  {
    if a != [] {
      var n := |a| - 1;
      ResidualNonnegative(a[..n], ma, b[..n], mb, t);
      SquaredSign(t, a[n] - ma, b[n] - mb);
      LineSplits(a, ma, b, mb, t);
      OneMoreSquare(Residual(a[..n], ma, b[..n], mb, t), Squared(t, a[n] - ma, b[n] - mb));
    }
  }

  lemma {:induction false} SquaredSign(t: real, x: real, y: real)
    ensures Squared(t, x, y) >= 0.0
    ensures Squared(t, x, y) == 0.0 <==> Product(t, x) == y
  {
    Square(t * x - y);
  }

  lemma {:induction false} OneMoreSquare(r: real, s: real)
    requires r >= 0.0 && s >= 0.0
    ensures r + s >= 0.0 && (r + s == 0.0 <==> r == 0.0 && s == 0.0)
  {
  }

  lemma {:induction false} LineSplits(a: seq<real>, ma: real, b: seq<real>, mb: real, t: real)
    requires |a| == |b| && a != []
    ensures var n := |a| - 1;
            OnLine(a, ma, b, mb, t) <==> OnLine(a[..n], ma, b[..n], mb, t) && Product(t, a[n] - ma) == b[n] - mb
  {
    var n := |a| - 1;
    assert forall i | 0 <= i < n :: a[..n][i] == a[i] && b[..n][i] == b[i];
  }

  lemma {:induction false} MomentNonnegative(a: seq<real>, m: real)
    ensures Moment(a, m, a, m) >= 0.0
    ensures Moment(a, m, a, m) == 0.0 <==> forall i | 0 <= i < |a| :: a[i] == m
  {
    if a != [] {
      var n := |a| - 1;
      MomentNonnegative(a[..n], m);
      Square(a[n] - m);
      assert forall i | 0 <= i < n :: a[..n][i] == a[i];
    }
  }

  /** At `t = s / p` the quadratic is its discriminant over `p`. */
  lemma {:induction false} Discriminant(t: real, p: real, s: real, q: real)
    requires p > 0.0 && Product(t, p) == s
    ensures Product(p, Quadratic(t * t, p, 2.0 * t, s, q)) == Product(p, q) - Product(s, s)
  {
    assert t * t * p == t * s by { assert t * t * p == t * (t * p); }
    assert 2.0 * t * s == 2.0 * (t * s);
    assert Quadratic(t * t, p, 2.0 * t, s, q) == q - t * s;
    assert p * (q - t * s) == p * q - p * (t * s);
    assert p * (t * s) == (t * p) * s;
  }

  lemma {:induction false} Scale(c: real, u: real, v: real)
    requires c >= 0.0 && u <= v
    ensures c * u <= c * v
  {
  }

  lemma {:induction false} Divide(s: real, p: real) returns (t: real)
    requires p != 0.0
    ensures Product(t, p) == s
  {
    t := s / p;
  }

  /** The Cauchy-Schwarz inequality. */
  lemma {:induction false} CauchySchwarz(a: seq<real>, ma: real, b: seq<real>, mb: real)
    requires |a| == |b| && Moment(a, ma, a, ma) > 0.0
    ensures Product(Moment(a, ma, b, mb), Moment(a, ma, b, mb)) <= Product(Moment(a, ma, a, ma), Moment(b, mb, b, mb))
  {
    var t := Divide(Moment(a, ma, b, mb), Moment(a, ma, a, ma));
    var p, s, q := Moment(a, ma, a, ma), Moment(a, ma, b, mb), Moment(b, mb, b, mb);
    ResidualIsQuadratic(a, ma, b, mb, t);
    ResidualNonnegative(a, ma, b, mb, t);
    Discriminant(t, p, s, q);
    Scale(p, 0.0, Quadratic(t * t, p, 2.0 * t, s, q));
  }

  lemma {:induction false} ZeroProduct(x: real, y: real)
    requires x > 0.0 && Product(x, y) == 0.0
    ensures y == 0.0
  {
  }

  /** When it is an equality, one side is a line through the other. */
  lemma {:induction false} CauchySchwarzEquality(a: seq<real>, ma: real, b: seq<real>, mb: real) returns (t: real)
    requires |a| == |b| && Moment(a, ma, a, ma) > 0.0
    requires Product(Moment(a, ma, b, mb), Moment(a, ma, b, mb)) == Product(Moment(a, ma, a, ma), Moment(b, mb, b, mb))
    ensures Product(t, Moment(a, ma, a, ma)) == Moment(a, ma, b, mb) && OnLine(a, ma, b, mb, t)
  {
    t := Divide(Moment(a, ma, b, mb), Moment(a, ma, a, ma));
    var p, s, q := Moment(a, ma, a, ma), Moment(a, ma, b, mb), Moment(b, mb, b, mb);
    Discriminant(t, p, s, q);
    ZeroProduct(p, Quadratic(t * t, p, 2.0 * t, s, q));
    ResidualIsQuadratic(a, ma, b, mb, t);
    ResidualNonnegative(a, ma, b, mb, t);
  }

  /** The coefficient lies between -1 and 1. */
  lemma {:induction false} SpearmanIsBounded(xs: seq<real>, ys: seq<real>)
    ensures var rho := SpearmanOf(xs, ys);
            rho.Ratio? ==> rho.sxx > 0.0 && rho.syy > 0.0 && Product(rho.sxy, rho.sxy) <= Product(rho.sxx, rho.syy)
  {
    var rho := SpearmanOf(xs, ys);
    if rho.Ratio? {
      var rx, ry := RanksOf(xs), RanksOf(ys);
      CauchySchwarz(rx, Mean(rx), ry, Mean(ry));
    }
  }

  // ------------------------------------------------------------------ when it is 0, 1 and -1

  ghost predicate IsConstant(xs: seq<real>) {
    forall i, j | 0 <= i < |xs| && 0 <= j < |xs| :: xs[i] == xs[j]
  }

  lemma {:induction false} SumOfEqual(s: seq<real>, c: real)
    requires forall i | 0 <= i < |s| :: s[i] == c
    ensures SumOver(s, (x: real) => x) == c * |s| as real
  {
    if s != [] { SumOfEqual(s[..|s| - 1], c); }
  }

  lemma {:induction false} Quotient(u: real, c: real, n: real)
    requires n != 0.0 && u == c * n
    ensures u / n == c
  {
  }

  lemma {:induction false} AddQuotients(u: real, v: real, n: real)
    requires n != 0.0
    ensures u / n + v / n == (u + v) / n
  {
    var x, y := u / n, v / n;
    assert x * n == u && y * n == v;
    assert (x + y) * n == u + v;
    Quotient(u + v, x + y, n);
  }

  lemma {:induction false} ConstantRanks(xs: seq<real>)
    requires xs != [] && IsConstant(xs)
    ensures forall i | 0 <= i < |xs| :: RanksOf(xs)[i] == Mean(RanksOf(xs))
  {
    var rx := RanksOf(xs);
    forall i | 0 <= i < |rx| ensures rx[i] == rx[0] {
      RanksPreserveOrder(xs, i, 0);
    }
    SumOfEqual(rx, rx[0]);
    Quotient(SumOver(rx, (x: real) => x), rx[0], |rx| as real);
  }

  lemma {:induction false} EqualRanks(xs: seq<real>, m: real)
    requires forall i | 0 <= i < |xs| :: RanksOf(xs)[i] == m
    ensures IsConstant(xs)
  {
    forall i, j | 0 <= i < |xs| && 0 <= j < |xs| ensures xs[i] == xs[j] {
      assert RanksOf(xs)[i] == m && RanksOf(xs)[j] == m;
      RanksPreserveOrder(xs, i, j);
    }
  }

  /** The ranks do not vary exactly when the values do not. */
  lemma {:induction false} ConstantMoment(xs: seq<real>)
    requires xs != []
    ensures var rx := RanksOf(xs); Moment(rx, Mean(rx), rx, Mean(rx)) <= 0.0 <==> IsConstant(xs)
  {
    var rx := RanksOf(xs);
    MomentNonnegative(rx, Mean(rx));
    if IsConstant(xs) { ConstantRanks(xs); }
    if forall i | 0 <= i < |xs| :: rx[i] == Mean(rx) { EqualRanks(xs, Mean(rx)); }
  }

  /** A dose that never varies predicts nothing: zero is returned exactly then. */
  lemma {:induction false} ZeroMeansConstant(xs: seq<real>, ys: seq<real>)
    requires |xs| == |ys| >= 3
    ensures SpearmanOf(xs, ys) == Zero <==> IsConstant(xs) || IsConstant(ys)
  {
    ConstantMoment(xs);
    ConstantMoment(ys);
  }

  ghost predicate SameOrder(xs: seq<real>, ys: seq<real>)
    requires |xs| == |ys|
  {
    forall j, k | 0 <= j < |xs| && 0 <= k < |xs| :: xs[j] < xs[k] <==> ys[j] < ys[k]
  }

  ghost predicate OppositeOrder(xs: seq<real>, ys: seq<real>)
    requires |xs| == |ys|
  {
    forall j, k | 0 <= j < |xs| && 0 <= k < |xs| :: xs[j] < xs[k] <==> ys[k] < ys[j]
  }

  /** The coefficient is exactly 1, or -1: it has that sign and square 1. */
  predicate IsOne(rho: Rho) {
    rho.Ratio? && rho.sxy > 0.0 && Product(rho.sxy, rho.sxy) == Product(rho.sxx, rho.syy)
  }

  predicate IsMinusOne(rho: Rho) {
    rho.Ratio? && rho.sxy < 0.0 && Product(rho.sxy, rho.sxy) == Product(rho.sxx, rho.syy)
  }

  /** The coefficient is 1 exactly when the two sides order every pair alike. */
  lemma {:induction false} WhenOne(xs: seq<real>, ys: seq<real>)
    requires |xs| == |ys| && SpearmanOf(xs, ys).Ratio?
    ensures IsOne(SpearmanOf(xs, ys)) <==> SameOrder(xs, ys)
  {
    if SameOrder(xs, ys) {
      SameOrderIsOne(xs, ys);
    } else if IsOne(SpearmanOf(xs, ys)) {
      var rx, ry := RanksOf(xs), RanksOf(ys);
      var t := CauchySchwarzEquality(rx, Mean(rx), ry, Mean(ry));
      PositiveFactor(t, Moment(rx, Mean(rx), rx, Mean(rx)));
      forall j, k | 0 <= j < |xs| && 0 <= k < |xs| ensures xs[j] < xs[k] <==> ys[j] < ys[k] {
        LineOrder(rx, Mean(rx), ry, Mean(ry), t, j, k);
        RanksPreserveOrder(xs, j, k);
        RanksPreserveOrder(ys, j, k);
      }
    }
  }

  /** And it is -1 exactly when they order every pair the other way round. */
  lemma {:induction false} WhenMinusOne(xs: seq<real>, ys: seq<real>)
    requires |xs| == |ys| && SpearmanOf(xs, ys).Ratio?
    ensures IsMinusOne(SpearmanOf(xs, ys)) <==> OppositeOrder(xs, ys)
  {
    if OppositeOrder(xs, ys) {
      OppositeOrderIsMinusOne(xs, ys);
      Negated(SpearmanOf(xs, ys).sxx);
    } else if IsMinusOne(SpearmanOf(xs, ys)) {
      var rx, ry := RanksOf(xs), RanksOf(ys);
      var t := CauchySchwarzEquality(rx, Mean(rx), ry, Mean(ry));
      NegativeFactor(t, Moment(rx, Mean(rx), rx, Mean(rx)));
      forall j, k | 0 <= j < |xs| && 0 <= k < |xs| ensures xs[j] < xs[k] <==> ys[k] < ys[j] {
        LineOrder(rx, Mean(rx), ry, Mean(ry), t, j, k);
        RanksPreserveOrder(xs, j, k);
        RanksPreserveOrder(ys, k, j);
      }
    }
  }

  lemma {:induction false} Negated(x: real)
    ensures Product(-x, -x) == Product(x, x)
  {
  }

  lemma {:induction false} PositiveFactor(t: real, p: real)
    requires p > 0.0 && Product(t, p) > 0.0
    ensures t > 0.0
  {
    if t < 0.0 { SameSign(-t, p); }
  }

  lemma {:induction false} NegativeFactor(t: real, p: real)
    requires p > 0.0 && Product(t, p) < 0.0
    ensures t < 0.0
  {
    if t > 0.0 { SameSign(t, p); }
  }

  lemma {:induction false} Slant(t: real, x: real, y: real)
    ensures t > 0.0 ==> (x < y <==> t * x < t * y)
    ensures t < 0.0 ==> (x < y <==> t * y < t * x)
  {
    assert t * y - t * x == t * (y - x);
    if t != 0.0 && x != y {
      var u, v := if t > 0.0 then t else -t, if x < y then y - x else x - y;
      SameSign(u, v);
      assert t * (y - x) == u * v || t * (y - x) == -(u * v);
    }
  }

  /** Along a rising line both sides are ordered alike, along a falling one they are not. */
  lemma {:induction false} LineOrder(a: seq<real>, ma: real, b: seq<real>, mb: real, t: real, j: nat, k: nat)
    requires |a| == |b| && OnLine(a, ma, b, mb, t) && j < |a| && k < |a|
    ensures t > 0.0 ==> (a[j] < a[k] <==> b[j] < b[k])
    ensures t < 0.0 ==> (a[j] < a[k] <==> b[k] < b[j])
  {
    Slant(t, a[j] - ma, a[k] - ma);
  }

  /** Two sides that order the pairs alike correlate perfectly, whatever their scales. */
  lemma {:induction false} SameOrderIsOne(xs: seq<real>, ys: seq<real>)
    requires |xs| == |ys| && SpearmanOf(xs, ys).Ratio?
    requires SameOrder(xs, ys)
    ensures var rho := SpearmanOf(xs, ys); rho.sxy == rho.sxx == rho.syy
  {
    forall i | 0 <= i < |xs| ensures RanksOf(xs)[i] == RanksOf(ys)[i] {
      RanksIgnoreScale(xs, ys, i);
    }
    assert RanksOf(xs) == RanksOf(ys);
  }

  /** Opposite orders: every rank is mirrored, and the correlation is perfectly negative. */
  lemma {:induction false} OppositeOrderIsMinusOne(xs: seq<real>, ys: seq<real>)
    requires |xs| == |ys| && SpearmanOf(xs, ys).Ratio?
    requires OppositeOrder(xs, ys)
    ensures var rho := SpearmanOf(xs, ys); rho.sxx == rho.syy == -rho.sxy
  {
    var rx, ry := RanksOf(xs), RanksOf(ys);
    var top := |xs| as real + 1.0;
    forall i | 0 <= i < |xs| ensures rx[i] + ry[i] == top {
      RanksMirror(xs, ys, i);
    }
    MirroredSum(rx, ry, top);
    var u, v, n := SumOver(rx, (x: real) => x), SumOver(ry, (x: real) => x), |xs| as real;
    Quotient(u + v, top, n);
    AddQuotients(u, v, n);
    assert Mean(rx) + Mean(ry) == top;
    MirroredMoment(rx, Mean(rx), ry, Mean(ry));
  }

  lemma {:induction false} ScoresMirror(xs: seq<real>, ys: seq<real>, m: nat, i: nat)
    requires |xs| == |ys| && m <= |xs| && i < |xs|
    requires forall j, k | 0 <= j < |xs| && 0 <= k < |xs| :: xs[j] < xs[k] <==> ys[k] < ys[j]
    ensures ScoreAgainst(xs, m, i) + ScoreAgainst(ys, m, i) == m as real
  {
    if m > 0 {
      ScoresMirror(xs, ys, m - 1, i);
      assert Score(xs[m - 1], xs[i]) + Score(ys[m - 1], ys[i]) == 1.0;
    }
  }

  lemma {:induction false} RanksMirror(xs: seq<real>, ys: seq<real>, i: nat)
    requires |xs| == |ys| && i < |xs|
    requires forall j, k | 0 <= j < |xs| && 0 <= k < |xs| :: xs[j] < xs[k] <==> ys[k] < ys[j]
    ensures MidRank(xs, i) + MidRank(ys, i) == |xs| as real + 1.0
  {
    ScoresMirror(xs, ys, |xs|, i);
  }

  lemma {:induction false} MirroredSum(a: seq<real>, b: seq<real>, top: real)
    requires |a| == |b| && forall i | 0 <= i < |a| :: a[i] + b[i] == top
    ensures SumOver(a, (x: real) => x) + SumOver(b, (x: real) => x) == top * |a| as real
  {
    if a != [] { MirroredSum(a[..|a| - 1], b[..|b| - 1], top); }
  }

  lemma {:induction false} MirroredMoment(a: seq<real>, ma: real, b: seq<real>, mb: real)
    requires |a| == |b| && forall i | 0 <= i < |a| :: a[i] + b[i] == ma + mb
    ensures Moment(b, mb, b, mb) == Moment(a, ma, a, ma) == -Moment(a, ma, b, mb)
  {
    if a != [] {
      var n := |a| - 1;
      MirroredMoment(a[..n], ma, b[..n], mb);
      assert b[n] - mb == -(a[n] - ma);
    }
  }
}
