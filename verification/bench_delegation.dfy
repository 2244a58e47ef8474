/** harness/bench_delegation.py: what delegating a sub-task to a fresh context costs and saves. */
module BenchDelegation {
  /** Dollars per million input and output tokens. */
  datatype Prices = Prices(inp: real, outp: real)

  const CACHE_READ := 0.1
  const CACHE_WRITE := 1.25
  const MILLION := 1000000.0

  function Min(x: int, y: int): int {
    if x < y then x else y
  }

  // ------------------------------------------------------------------ pricing a sequence

  /** The request before request `n`, or what is warm before the first. */
  function Previous(sizes: seq<nat>, warm: nat, n: nat): nat
    requires n <= |sizes|
  {
    if n == 0 then warm else sizes[n - 1]
  }

  /** Tokens read from the cache, and written to it, by the first `n` requests. */
  function Reads(sizes: seq<nat>, warm: nat, n: nat): nat
    requires n <= |sizes|
  {
    if n == 0 then 0 else Reads(sizes, warm, n - 1) + Min(Previous(sizes, warm, n - 1), sizes[n - 1])
  }

  function Writes(sizes: seq<nat>, warm: nat, n: nat): nat
    requires n <= |sizes|
  {
    if n == 0 then 0
    else Writes(sizes, warm, n - 1) + sizes[n - 1] - Min(Previous(sizes, warm, n - 1), sizes[n - 1])
  }

  function Sum(s: seq<nat>, n: nat): nat
    requires n <= |s|
  {
    if n == 0 then 0 else Sum(s, n - 1) + s[n - 1]
  }

  function Times(x: real, y: real): real {
    x * y
  }

  /** The dollars for so many reads, writes and output tokens. */
  function Dollars(p: Prices, read: int, written: int, output: int): real {
    Times(CACHE_READ * read as real + CACHE_WRITE * written as real, p.inp) / MILLION
        + Times(output as real, p.outp) / MILLION
  }

  lemma {:induction false} Distribute(x: real, y: real, z: real)
    ensures Times(x + y, z) == Times(x, z) + Times(y, z)
  {
  }

  /** Dollars add up. */
  lemma {:induction false} DollarsAdd(p: Prices, r: int, w: int, o: int, r': int, w': int, o': int)
    ensures Dollars(p, r + r', w + w', o + o') == Dollars(p, r, w, o) + Dollars(p, r', w', o')
  {
    Distribute(CACHE_READ * r as real + CACHE_WRITE * w as real,
               CACHE_READ * r' as real + CACHE_WRITE * w' as real, p.inp);
    Distribute(o as real, o' as real, p.outp);
  }

  function Price(sizes: seq<nat>, outputs: seq<nat>, p: Prices, warm: nat): real {
    var n := Min(|sizes|, |outputs|);
    Dollars(p, Reads(sizes, warm, n), Writes(sizes, warm, n), Sum(outputs, n))
  }

  /** `price_sequence`; `zip` stops at the shorter list. */
  method PriceSequence(sizes: seq<nat>, outputs: seq<nat>, p: Prices, warm: nat) returns (cost: real)
    ensures cost == Price(sizes, outputs, p, warm)
  {
    var prev := warm;
    cost := 0.0;
    var n := Min(|sizes|, |outputs|);
    for i := 0 to n
      invariant prev == Previous(sizes, warm, i)
      invariant cost == Dollars(p, Reads(sizes, warm, i), Writes(sizes, warm, i), Sum(outputs, i))
    {
      var s, o := sizes[i], outputs[i];
      var read := Min(prev, s);
      var write := if s - read > 0 then s - read else 0;
      DollarsAdd(p, Reads(sizes, warm, i), Writes(sizes, warm, i), Sum(outputs, i), read, write, o);
      cost := cost + Times(CACHE_READ * read as real + CACHE_WRITE * write as real, p.inp) / MILLION;
      cost := cost + Times(o as real, p.outp) / MILLION;
      prev := s;
    }
  }

  /** Every input token is priced once: read or written. */
  lemma {:induction false} ReadOrWritten(sizes: seq<nat>, warm: nat, n: nat)
    requires n <= |sizes|
    ensures Reads(sizes, warm, n) + Writes(sizes, warm, n) == Sum(sizes, n)
  {
    if n > 0 { ReadOrWritten(sizes, warm, n - 1); }
  }

  ghost predicate Growing(sizes: seq<nat>, warm: nat) {
    && (sizes != [] ==> warm <= sizes[0])
    && (forall i {:trigger Previous(sizes, warm, i)} | 0 < i < |sizes| :: Previous(sizes, warm, i) <= sizes[i])
  }

  /** When each rendering extends the one before, everything but the last request is read again, and
      only what the last adds to the warm prefix was ever written. */
  lemma {:induction false} GrowingSequence(sizes: seq<nat>, warm: nat, n: nat)
    requires Growing(sizes, warm) && 0 < n <= |sizes|
    ensures Reads(sizes, warm, n) == warm + Sum(sizes, n - 1)
    ensures Writes(sizes, warm, n) == sizes[n - 1] - warm
  {
    if n > 1 {
      GrowingSequence(sizes, warm, n - 1);
      assert Previous(sizes, warm, n - 1) <= sizes[n - 1];
    }
  }

  ghost predicate Shrinking(sizes: seq<nat>, warm: nat) {
    forall i {:trigger Previous(sizes, warm, i)} | 0 <= i < |sizes| :: Previous(sizes, warm, i) >= sizes[i]
  }

  /** When each request is a part of the one before, all of it is read and nothing written. */
  lemma {:induction false} ShrinkingSequence(sizes: seq<nat>, warm: nat, n: nat)
    requires Shrinking(sizes, warm) && n <= |sizes|
    ensures Reads(sizes, warm, n) == Sum(sizes, n) && Writes(sizes, warm, n) == 0
  {
    if n > 0 {
      ShrinkingSequence(sizes, warm, n - 1);
      assert Previous(sizes, warm, n - 1) >= sizes[n - 1];
    }
  }

  // ------------------------------------------------------------------ the two arms

  /** Tokens: the parent's prefix, the sub-task's observations and steps, the child's overhead, its
      report, an assistant turn, the parent's growth per step and its remaining steps. */
  datatype Scenario = Scenario(P: nat, V: nat, S: nat, O: nat, rho: nat, a: nat, g: nat, R: nat) {
    /** Growth per step of the sub-task. */
    function Growth(): nat
      requires S > 0
    {
      V / S + a
    }
  }

  /** `[start + k * step for k in range(n)]`. */
  function Steps(start: nat, step: nat, n: nat): (s: seq<nat>)
    ensures |s| == n
  {
    if n == 0 then [] else Steps(start, step, n - 1) + [start + (n - 1) * step]
  }

  /** `[x] * n`. */
  function Repeat(x: nat, n: nat): (s: seq<nat>)
    ensures |s| == n
  {
    if n == 0 then [] else Repeat(x, n - 1) + [x]
  }

  function InlineSizes(sc: Scenario): seq<nat>
    requires sc.S > 0
  {
    var base := sc.P + sc.S * sc.Growth();
    Steps(sc.P, sc.Growth(), sc.S) + Steps(base, sc.g, sc.R) + [base + sc.R * sc.g]
  }

  function InlineCost(sc: Scenario, p: Prices): real
    requires sc.S > 0
  {
    Price(InlineSizes(sc), Repeat(sc.a, sc.S + sc.R) + [sc.rho], p, sc.P)
  }

  function ChildSizes(sc: Scenario): seq<nat>
    requires sc.S > 0
  {
    Steps(sc.O, sc.Growth(), sc.S) + [sc.O + sc.S * sc.Growth()]
  }

  function RestSizes(sc: Scenario): seq<nat> {
    var base := sc.P + sc.a + sc.rho;
    Steps(base, sc.g, sc.R) + [base + sc.R * sc.g]
  }

  function DelegatedCost(sc: Scenario, p: Prices): real
    requires sc.S > 0
  {
    Price([sc.P], [sc.a], p, sc.P)
    + Price(ChildSizes(sc), Repeat(sc.a, sc.S) + [sc.rho], p, 0)
    + Price(RestSizes(sc), Repeat(sc.a, sc.R) + [sc.rho], p, sc.P)
  }

  /** What delegating saves. */
  function Delta(sc: Scenario, p: Prices): real
    requires sc.S > 0
  {
    InlineCost(sc, p) - DelegatedCost(sc, p)
  }

  datatype BreakEven = Never | From(at: real)

  function BreakEvenR(sc: Scenario, p: Prices): BreakEven
    requires sc.S > 0
  {
    var d0, d1 := Delta(sc.(R := 0), p), Delta(sc.(R := 1), p);
    Zero(d0, d1 - d0)
  }

  /** Where the line from `d0` with that slope reaches zero, as the source reports it. */
  function Zero(d0: real, slope: real): BreakEven {
    if d0 >= 0.0 then From(0.0)
    else if slope <= 0.0 then Never
    else From(-d0 / slope)
  }

  // ------------------------------------------------------------------ closed forms

  lemma {:induction false} SumAppend(s: seq<nat>, t: seq<nat>, n: nat)
    requires n <= |t|
    ensures Sum(s + t, |s| + n) == Sum(s, |s|) + Sum(t, n)
  {
    if n > 0 {
      SumAppend(s, t, n - 1);
    } else {
      SumPrefix(s, t, |s|);
    }
  }

  lemma {:induction false} SumPrefix(s: seq<nat>, t: seq<nat>, n: nat)
    requires n <= |s|
    ensures Sum(s + t, n) == Sum(s, n)
  {
    if n > 0 { SumPrefix(s, t, n - 1); }
  }

  lemma {:induction false} SumRepeat(x: nat, n: nat)
    ensures Sum(Repeat(x, n), n) == n * x
  {
    if n > 0 {
      SumRepeat(x, n - 1);
      SumPrefix(Repeat(x, n - 1), [x], n - 1);
      assert n * x == (n - 1) * x + x;
    }
  }

  /** The tokens in `n` growing requests. */
  function Tokens(start: nat, step: nat, n: nat): nat {
    Sum(Steps(start, step, n), n)
  }

  lemma {:induction false} TokensStep(start: nat, step: nat, n: nat)
    requires n > 0
    ensures Tokens(start, step, n) == Tokens(start, step, n - 1) + start + (n - 1) * step
  {
    SumPrefix(Steps(start, step, n - 1), [start + (n - 1) * step], n - 1);
  }

  lemma {:induction false} TokensShift(x: nat, y: nat, step: nat, n: nat)
    ensures Tokens(x + y, step, n) == Tokens(x, step, n) + n * y
  {
    if n > 0 {
      TokensShift(x, y, step, n - 1);
      TokensStep(x + y, step, n);
      TokensStep(x, step, n);
      assert n * y == (n - 1) * y + y;
    }
  }

  lemma {:induction false} StepAt(start: nat, step: nat, n: nat, k: nat)
    requires k < n
    ensures Steps(start, step, n)[k] == start + k * step
  {
    if k < n - 1 { StepAt(start, step, n - 1, k); }
  }

  lemma {:induction false} StepsGrow(start: nat, step: nat, n: nat, k: nat)
    requires 0 < k < n
    ensures Steps(start, step, n)[k - 1] <= Steps(start, step, n)[k]
  {
    StepAt(start, step, n, k - 1);
    StepAt(start, step, n, k);
    assert k * step == (k - 1) * step + step;
  }

  lemma {:induction false} StartsAt(start: nat, step: nat, n: nat)
    requires n > 0
    ensures Steps(start, step, n)[0] == start
  {
    StepAt(start, step, n, 0);
  }

  lemma {:induction false} InlineGrows(sc: Scenario)
    requires sc.S > 0
    ensures Growing(InlineSizes(sc), sc.P)
  {
    var sizes, d := InlineSizes(sc), sc.Growth();
    var base := sc.P + sc.S * d;
    var first, rest := Steps(sc.P, d, sc.S), Steps(base, sc.g, sc.R + 1);
    assert sizes == first + rest;
    StartsAt(sc.P, d, sc.S);
    forall i | 0 < i < |sizes| ensures Previous(sizes, sc.P, i) <= sizes[i] {
      if i < sc.S {
        StepsGrow(sc.P, d, sc.S, i);
      } else if i == sc.S {
        StepAt(sc.P, d, sc.S, sc.S - 1);
        StartsAt(base, sc.g, sc.R + 1);
        assert sc.S * d == (sc.S - 1) * d + d;
      } else {
        StepsGrow(base, sc.g, sc.R + 1, i - sc.S);
        assert sizes[i] == rest[i - sc.S] && sizes[i - 1] == rest[i - sc.S - 1];
      }
    }
  }

  lemma {:induction false} TwoRuns(s: seq<nat>, t: seq<nat>, last: nat, warm: nat)
    requires Growing(s + t + [last], warm)
    ensures var sizes := s + t + [last];
            && Reads(sizes, warm, |s| + |t| + 1) == warm + Sum(s, |s|) + Sum(t, |t|)
            && Writes(sizes, warm, |s| + |t| + 1) == last - warm
  {
    GrowingSequence(s + t + [last], warm, |s| + |t| + 1);
    SumPrefix(s + t, [last], |s| + |t|);
    SumAppend(s, t, |t|);
  }

  lemma {:induction false} OutputsOf(x: nat, n: nat, last: nat)
    ensures Sum(Repeat(x, n) + [last], n + 1) == n * x + last
  {
    SumAppend(Repeat(x, n), [last], 1);
    SumRepeat(x, n);
    assert Sum([last], 1) == last;
  }

  lemma {:induction false} RunGrows(start: nat, step: nat, n: nat, warm: nat)
    requires warm <= start
    ensures Growing(Steps(start, step, n) + [] + [start + n * step], warm)
  {
    var sizes := Steps(start, step, n) + [] + [start + n * step];
    assert sizes == Steps(start, step, n + 1);
    StartsAt(start, step, n + 1);
    forall i | 0 < i < |sizes| ensures Previous(sizes, warm, i) <= sizes[i] {
      StepsGrow(start, step, n + 1, i);
    }
  }

  /** What a run of steps and one last request cost, starting from a warm prefix. */
  lemma {:induction false} RunPrice(start: nat, step: nat, n: nat, warm: nat, x: nat, last: nat, p: Prices)
    requires warm <= start
    ensures Price(Steps(start, step, n) + [start + n * step], Repeat(x, n) + [last], p, warm)
         == Dollars(p, warm + Tokens(start, step, n), start + n * step - warm, n * x + last)
  {
    RunGrows(start, step, n, warm);
    PriceOfRuns(Steps(start, step, n), [], start + n * step, warm, x, n, last, p);
    assert Steps(start, step, n) + [] == Steps(start, step, n);
  }

  lemma {:induction false} PriceOf(sizes: seq<nat>, outputs: seq<nat>, p: Prices, warm: nat, r: int, w: int, o: int)
    requires |sizes| == |outputs|
    requires Reads(sizes, warm, |sizes|) == r && Writes(sizes, warm, |sizes|) == w && Sum(outputs, |outputs|) == o
    ensures Price(sizes, outputs, p, warm) == Dollars(p, r, w, o)
  {
  }

  /** What two runs of requests and a last one cost. */
  lemma {:induction false} PriceOfRuns(s: seq<nat>, t: seq<nat>, last: nat, warm: nat, x: nat, n: nat, final: nat,
      p: Prices)
    requires Growing(s + t + [last], warm) && |s| + |t| == n
    ensures Price(s + t + [last], Repeat(x, n) + [final], p, warm)
         == Dollars(p, warm + Sum(s, |s|) + Sum(t, |t|), last - warm, n * x + final)
  {
    TwoRuns(s, t, last, warm);
    OutputsOf(x, n, final);
    assert |s + t + [last]| == n + 1 && |Repeat(x, n) + [final]| == n + 1;
    PriceOf(s + t + [last], Repeat(x, n) + [final], p, warm,
            warm + Sum(s, |s|) + Sum(t, |t|), last - warm, n * x + final);
  }

  lemma {:induction false} InlinePrice(sc: Scenario, p: Prices)
    requires sc.S > 0
    ensures var d := sc.Growth();
            var base := sc.P + sc.S * d;
            InlineCost(sc, p) == Dollars(p, sc.P + Tokens(sc.P, d, sc.S) + Tokens(base, sc.g, sc.R),
                                         base + sc.R * sc.g - sc.P, (sc.S + sc.R) * sc.a + sc.rho)
  {
    var d := sc.Growth();
    var base := sc.P + sc.S * d;
    InlineGrows(sc);
    PriceOfRuns(Steps(sc.P, d, sc.S), Steps(base, sc.g, sc.R), base + sc.R * sc.g, sc.P, sc.a, sc.S + sc.R, sc.rho, p);
  }

  /** What each remaining parent step saves by not re-reading the sub-task, and what it costs: the tokens
      a step carries inline less those it carries delegated. */
  function Carry(sc: Scenario): int
    requires sc.S > 0
  {
    sc.S * sc.Growth() - sc.a - sc.rho
  }

  /** Tokens the sub-task's own steps read less by starting from the child's overhead. */
  function Avoided(sc: Scenario): int {
    sc.S * sc.P - sc.S * sc.O - sc.P
  }

  lemma {:induction false} DelegatedPrice(sc: Scenario, p: Prices)
    requires sc.S > 0
    ensures var d := sc.Growth();
            var base := sc.P + sc.a + sc.rho;
            DelegatedCost(sc, p) == Dollars(p, sc.P, 0, sc.a)
              + Dollars(p, Tokens(sc.O, d, sc.S), sc.O + sc.S * d, sc.S * sc.a + sc.rho)
              + Dollars(p, sc.P + Tokens(base, sc.g, sc.R), base + sc.R * sc.g - sc.P, sc.R * sc.a + sc.rho)
  {
    CallPrice(sc.P, sc.a, p);
    RunPrice(sc.O, sc.Growth(), sc.S, 0, sc.a, sc.rho, p);
    RunPrice(sc.P + sc.a + sc.rho, sc.g, sc.R, sc.P, sc.a, sc.rho, p);
  }

  lemma {:induction false} CallPrice(size: nat, output: nat, p: Prices)
    ensures Price([size], [output], p, size) == Dollars(p, size, 0, output)
  {
    assert Reads([size], size, 1) == size && Writes([size], size, 1) == 0 && Sum([output], 1) == output;
  }

  lemma {:induction false} Difference(p: Prices, r: int, w: int, o: int, r0: int, w0: int, o0: int, r1: int, w1: int,
      o1: int, r2: int, w2: int, o2: int, dr: int, dw: int, do: int)
    requires r == r0 + r1 + r2 + dr && w == w0 + w1 + w2 + dw && o == o0 + o1 + o2 + do
    ensures Dollars(p, r, w, o) - (Dollars(p, r0, w0, o0) + Dollars(p, r1, w1, o1) + Dollars(p, r2, w2, o2))
         == Dollars(p, dr, dw, do)
  {
    DollarsAdd(p, r0, w0, o0, r1, w1, o1);
    DollarsAdd(p, r0 + r1, w0 + w1, o0 + o1, r2, w2, o2);
    DollarsAdd(p, r0 + r1 + r2, w0 + w1 + w2, o0 + o1 + o2, dr, dw, do);
  }

  /** Tokens delegation writes to the cache that the inline arm does not. */
  function Written(sc: Scenario): int {
    sc.O + sc.a + sc.rho
  }

  /** Output tokens only delegation pays for: one more turn and one more report. */
  function Reported(sc: Scenario): int {
    sc.a + sc.rho
  }

  lemma {:induction false} ReadSavings(sc: Scenario)
    requires sc.S > 0
    ensures var d := sc.Growth();
            sc.P + Tokens(sc.P, d, sc.S) + Tokens(sc.P + sc.S * d, sc.g, sc.R)
            == sc.P + Tokens(sc.O, d, sc.S) + (sc.P + Tokens(sc.P + sc.a + sc.rho, sc.g, sc.R))
               + (Avoided(sc) + sc.R * Carry(sc))
  {
    var d := sc.Growth();
    TokensShift(0, sc.P, d, sc.S);
    TokensShift(0, sc.O, d, sc.S);
    TokensShift(sc.P, sc.S * d, sc.g, sc.R);
    TokensShift(sc.P, sc.a + sc.rho, sc.g, sc.R);
    TimesDifference(sc.R, sc.S * d, sc.a + sc.rho);
  }

  lemma {:induction false} TimesDifference(n: int, x: int, y: int)
    ensures n * (x - y) == n * x - n * y
  {
  }

  lemma {:induction false} WriteSavings(sc: Scenario)
    requires sc.S > 0
    ensures var x, grown := sc.S * sc.Growth(), sc.R * sc.g;
            sc.P + x + grown - sc.P == 0 + (sc.O + x) + (sc.P + sc.a + sc.rho + grown - sc.P) - Written(sc)
  {
  }

  lemma {:induction false} OutputSavings(sc: Scenario)
    ensures (sc.S + sc.R) * sc.a + sc.rho == sc.a + (sc.S * sc.a + sc.rho) + (sc.R * sc.a + sc.rho) - Reported(sc)
  {
    assert (sc.S + sc.R) * sc.a == sc.S * sc.a + sc.R * sc.a;
  }

  /** The saving, for any number of remaining steps, in tokens. */
  lemma {:induction false} DeltaInTokens(sc: Scenario, p: Prices)
    requires sc.S > 0
    ensures Delta(sc, p) == Dollars(p, Avoided(sc) + sc.R * Carry(sc), -Written(sc), -Reported(sc))
  {
    var d := sc.Growth();
    var x, grown := sc.S * d, sc.R * sc.g;
    InlinePrice(sc, p);
    DelegatedPrice(sc, p);
    ReadSavings(sc);
    WriteSavings(sc);
    OutputSavings(sc);
    Difference(p, sc.P + Tokens(sc.P, d, sc.S) + Tokens(sc.P + x, sc.g, sc.R), sc.P + x + grown - sc.P,
               (sc.S + sc.R) * sc.a + sc.rho,
               sc.P, 0, sc.a,
               Tokens(sc.O, d, sc.S), sc.O + x, sc.S * sc.a + sc.rho,
               sc.P + Tokens(sc.P + sc.a + sc.rho, sc.g, sc.R), sc.P + sc.a + sc.rho + grown - sc.P,
               sc.R * sc.a + sc.rho,
               Avoided(sc) + sc.R * Carry(sc), -Written(sc), -Reported(sc));
  }

  // ------------------------------------------------------------------ the break-even

  /** What one token-equivalent carried for one step saves, in dollars. */
  function ReadPrice(p: Prices): real {
    CACHE_READ * p.inp / MILLION
  }

  function Slope(sc: Scenario, p: Prices): real
    requires sc.S > 0
  {
    Times(Carry(sc) as real, ReadPrice(p))
  }

  lemma {:induction false} ReadDollars(p: Prices, n: int, c: int)
    ensures Dollars(p, n * c, 0, 0) == Times(n as real, Times(c as real, ReadPrice(p)))
  {
    assert (n * c) as real == n as real * c as real;
    assert Dollars(p, n * c, 0, 0) == (n as real * c as real) * ReadPrice(p);
    assert (n as real * c as real) * ReadPrice(p) == n as real * (c as real * ReadPrice(p));
  }

  lemma {:induction false} DeltaAt(sc: Scenario, p: Prices, n: nat)
    requires sc.S > 0
    ensures Delta(sc.(R := n), p) == Dollars(p, Avoided(sc) + n * Carry(sc), -Written(sc), -Reported(sc))
  {
    DeltaInTokens(sc.(R := n), p);
  }

  /** The saving is a straight line in the remaining steps. */
  lemma {:induction false} DeltaIsAffine(sc: Scenario, p: Prices, n: nat)
    requires sc.S > 0
    ensures Delta(sc.(R := n), p) == Delta(sc.(R := 0), p) + Times(n as real, Slope(sc, p))
  {
    DeltaAt(sc, p, n);
    DeltaAtZero(sc, p);
    AddCarried(p, Avoided(sc), -Written(sc), -Reported(sc), n, Carry(sc), Slope(sc, p));
  }

  lemma {:induction false} DeltaAtZero(sc: Scenario, p: Prices)
    requires sc.S > 0
    ensures Delta(sc.(R := 0), p) == Dollars(p, Avoided(sc), -Written(sc), -Reported(sc))
  {
    DeltaAt(sc, p, 0);
  }

  lemma {:induction false} AddCarried(p: Prices, r: int, w: int, o: int, n: nat, c: int, slope: real)
    requires slope == Times(c as real, ReadPrice(p))
    ensures Dollars(p, r + n * c, w, o) == Dollars(p, r, w, o) + Times(n as real, slope)
  {
    DollarsAdd(p, r, w, o, n * c, 0, 0);
    ReadDollars(p, n, c);
  }

  lemma {:induction false} SlopeIsDifference(sc: Scenario, p: Prices)
    requires sc.S > 0
    ensures Delta(sc.(R := 1), p) - Delta(sc.(R := 0), p) == Slope(sc, p)
  {
    DeltaIsAffine(sc, p, 1);
    assert Times(1.0, Slope(sc, p)) == Slope(sc, p);
  }

  /** Carrying pays exactly when a step carries more inline than delegated. */
  lemma {:induction false} SlopeSign(sc: Scenario, p: Prices)
    requires sc.S > 0 && p.inp > 0.0
    ensures Slope(sc, p) > 0.0 <==> Carry(sc) > 0
    ensures Slope(sc, p) < 0.0 <==> Carry(sc) < 0
  {
    var c, r := Carry(sc) as real, ReadPrice(p);
    assert r > 0.0;
    if c > 0.0 {
      PositiveTimes(c, r);
    } else if c < 0.0 {
      PositiveTimes(-c, r);
      assert (-c) * r == -(c * r);
    }
  }

  lemma {:induction false} PositiveTimes(x: real, y: real)
    requires x > 0.0 && y > 0.0
    ensures Times(x, y) > 0.0
  {
  }

  /** Delegation has paid for itself after `n` remaining steps. */
  predicate Pays(sc: Scenario, p: Prices, n: nat)
    requires sc.S > 0
  {
    Delta(sc.(R := n), p) >= 0.0
  }

  predicate AtLeast(n: nat, b: BreakEven) {
    b.From? && n as real >= b.at
  }

  /** Below zero at first and rising: the line crosses zero at the quotient. */
  lemma {:induction false} Crossing(d0: real, slope: real, n: real)
    requires slope > 0.0
    ensures d0 + Times(n, slope) >= 0.0 <==> n >= -d0 / slope
  {
    var x := -d0 / slope;
    assert x * slope == -d0;
    if n >= x {
      Ordered(x, n, slope);
    } else {
      PositiveTimes(x - n, slope);
      assert (x - n) * slope == x * slope - n * slope;
    }
  }

  lemma {:induction false} Ordered(x: real, y: real, c: real)
    requires x <= y && c >= 0.0
    ensures x * c <= y * c
  {
    assert (y - x) * c >= 0.0;
  }

  lemma {:induction false} LineCrosses(d0: real, slope: real, n: nat)
    requires d0 < 0.0 || slope >= 0.0
    ensures d0 + Times(n as real, slope) >= 0.0 <==> AtLeast(n, Zero(d0, slope))
  {
    if d0 >= 0.0 {
      Ordered(0.0, n as real, slope);
    } else if slope <= 0.0 {
      Ordered(0.0, n as real, -slope);
      assert n as real * -slope == -(n as real * slope);
    } else {
      Crossing(d0, slope, n as real);
    }
  }

  lemma {:induction false} LineFalls(d0: real, slope: real) returns (n: nat)
    requires d0 >= 0.0 && slope < 0.0
    ensures d0 + Times(n as real, slope) < 0.0
  {
    var x := d0 / -slope;
    assert x * -slope == d0;
    NonnegativeQuotient(d0, -slope);
    n := x.Floor + 1;
    PositiveTimes(n as real - x, -slope);
    assert (n as real - x) * -slope == n as real * -slope - x * -slope;
    assert n as real * -slope == -(n as real * slope);
  }

  lemma {:induction false} NonnegativeQuotient(x: real, y: real)
    requires x >= 0.0 && y > 0.0
    ensures x / y >= 0.0
  {
  }

  /** `n` remaining steps pay exactly from the break-even on, as long as the saving does not start at or
      above zero and then fall. */
  lemma {:induction false} BreakEvenIsThreshold(sc: Scenario, p: Prices, n: nat)
    requires sc.S > 0 && p.inp > 0.0
    requires Delta(sc.(R := 0), p) < 0.0 || Carry(sc) >= 0
    ensures Pays(sc, p, n) <==> AtLeast(n, BreakEvenR(sc, p))
  {
    DeltaIsAffine(sc, p, n);
    SlopeIsDifference(sc, p);
    SlopeSign(sc, p);
    LineCrosses(Delta(sc.(R := 0), p), Slope(sc, p), n);
  }

  /** Otherwise it stops paying: `0.0` is returned, and some number of steps from there on does not pay. */
  lemma {:induction false} FallingSavingStopsPaying(sc: Scenario, p: Prices) returns (n: nat)
    requires sc.S > 0 && p.inp > 0.0
    requires Delta(sc.(R := 0), p) >= 0.0 && Carry(sc) < 0
    ensures AtLeast(n, BreakEvenR(sc, p)) && !Pays(sc, p, n)
  {
    SlopeSign(sc, p);
    n := LineFalls(Delta(sc.(R := 0), p), Slope(sc, p));
    DeltaIsAffine(sc, p, n);
  }

  /** So the break-even is the threshold it is documented to be if and only if that does not happen. */
  lemma {:induction false} WhenBreakEvenHolds(sc: Scenario, p: Prices)
    requires sc.S > 0 && p.inp > 0.0
    ensures (forall n: nat :: Pays(sc, p, n) <==> AtLeast(n, BreakEvenR(sc, p)))
       <==> Delta(sc.(R := 0), p) < 0.0 || Carry(sc) >= 0
  {
    if Delta(sc.(R := 0), p) < 0.0 || Carry(sc) >= 0 {
      forall n: nat ensures Pays(sc, p, n) <==> AtLeast(n, BreakEvenR(sc, p)) {
        BreakEvenIsThreshold(sc, p, n);
      }
    } else {
      var n := FallingSavingStopsPaying(sc, p);
      assert !(Pays(sc, p, n) <==> AtLeast(n, BreakEvenR(sc, p)));
    }
  }

  // ------------------------------------------------------------------ the closed form

  /** The numerator `closed_form_R` divides by what a step carries. */
  function ClosedNumerator(sc: Scenario, p: Prices): real
    requires sc.S > 0 && p.inp != 0.0
  {
    var grown := sc.S * sc.Growth();
    CACHE_WRITE * sc.O as real + CACHE_READ * (sc.O + grown) as real + Times(p.outp / p.inp, (sc.rho + sc.a) as real)
    - CACHE_READ * (sc.S * sc.P - sc.S * sc.O) as real
  }

  function ClosedFormR(sc: Scenario, p: Prices): BreakEven
    requires sc.S > 0 && p.inp != 0.0
  {
    var carry := CACHE_READ * Carry(sc) as real;
    if carry <= 0.0 then Never
    else
      var val := ClosedNumerator(sc, p) / carry;
      From(if val > 0.0 then val else 0.0)
  }

  /** The numerator the priced sequences give. */
  function PricedNumerator(sc: Scenario, p: Prices): real
    requires p.inp != 0.0
  {
    CACHE_WRITE * Written(sc) as real + Times(p.outp / p.inp, Reported(sc) as real) - CACHE_READ * Avoided(sc) as real
  }

  /** How far apart they are, whatever the prices. */
  function Gap(sc: Scenario): real
    requires sc.S > 0
  {
    CACHE_READ * (sc.O + sc.S * sc.Growth() - sc.P) as real - CACHE_WRITE * (sc.a + sc.rho) as real
  }

  lemma {:induction false} NumeratorsDiffer(sc: Scenario, p: Prices)
    requires sc.S > 0 && p.inp != 0.0
    ensures ClosedNumerator(sc, p) == PricedNumerator(sc, p) + Gap(sc)
  {
  }

  lemma {:induction false} InputShare(tokens: real, inp: real)
    ensures Times(tokens, inp / MILLION) == -(Times(-tokens, inp) / MILLION)
  {
    assert Times(-tokens, inp) == -Times(tokens, inp);
  }

  lemma {:induction false} DollarsNegated(p: Prices, r: int, w: int, o: int)
    requires p.inp > 0.0
    ensures -Dollars(p, r, -w, -o)
         == Times(CACHE_WRITE * w as real + Times(p.outp / p.inp, o as real) - CACHE_READ * r as real, p.inp / MILLION)
  {
    var tokens := CACHE_WRITE * w as real - CACHE_READ * r as real;
    Distribute(tokens, Times(p.outp / p.inp, o as real), p.inp / MILLION);
    OutputShare(p, o as real);
    InputShare(tokens, p.inp);
  }

  /** With no remaining step, the saving is the priced numerator, lost. */
  lemma {:induction false} StartInNumerator(sc: Scenario, p: Prices)
    requires sc.S > 0 && p.inp > 0.0
    ensures -Delta(sc.(R := 0), p) == Times(PricedNumerator(sc, p), p.inp / MILLION)
  {
    DeltaAtZero(sc, p);
    DollarsNegated(p, Avoided(sc), Written(sc), Reported(sc));
  }

  lemma {:induction false} OutputShare(p: Prices, out: real)
    requires p.inp > 0.0
    ensures Times(Times(p.outp / p.inp, out), p.inp / MILLION) == -(Times(-out, p.outp) / MILLION)
  {
    var q := p.outp / p.inp;
    assert q * p.inp == p.outp;
    assert (q * out) * p.inp == out * (q * p.inp);
  }

  lemma {:induction false} SameQuotient(x: real, num: real, carry: real, k: real)
    requires carry > 0.0 && k > 0.0
    ensures Times(num, k) / Times(carry, k) == num / carry
  {
    PositiveTimes(carry, k);
    var y := num / carry;
    assert y * carry == num;
    assert y * Times(carry, k) == Times(num, k);
  }

  lemma {:induction false} QuotientsAgree(d0: real, slope: real, num: real, gap: real, carry: real, k: real)
    requires carry > 0.0 && k > 0.0 && d0 < 0.0 && slope > 0.0
    requires -d0 == Times(num, k) && slope == Times(carry, k)
    ensures var val := (num + gap) / carry;
            From(if val > 0.0 then val else 0.0) == Zero(d0, slope) <==> gap == 0.0
  {
    SameQuotient(0.0, num, carry, k);
    PositiveQuotient(-d0, slope);
    SameOver(num, num + gap, carry);
  }

  lemma {:induction false} PositiveQuotient(x: real, y: real)
    requires x > 0.0 && y > 0.0
    ensures x / y > 0.0
  {
    NonnegativeQuotient(x, y);
    assert x / y * y == x;
  }

  lemma {:induction false} SlopeInCarry(sc: Scenario, p: Prices)
    requires sc.S > 0
    ensures Slope(sc, p) == Times(CACHE_READ * Carry(sc) as real, p.inp / MILLION)
  {
    var c := Carry(sc) as real;
    assert c * (CACHE_READ * p.inp / MILLION) == (CACHE_READ * c) * (p.inp / MILLION);
  }

  /** While delegation neither pays at once nor never, the closed form gives the break-even exactly when
      the gap is zero. */
  lemma {:induction false} ClosedFormAgreesBetween(sc: Scenario, p: Prices)
    requires sc.S > 0 && p.inp > 0.0 && Carry(sc) > 0 && Delta(sc.(R := 0), p) < 0.0
    ensures ClosedFormR(sc, p) == BreakEvenR(sc, p) <==> Gap(sc) == 0.0
  {
    NumeratorsDiffer(sc, p);
    StartInNumerator(sc, p);
    SlopeIsDifference(sc, p);
    SlopeSign(sc, p);
    SlopeInCarry(sc, p);
    QuotientsAgree(Delta(sc.(R := 0), p), Slope(sc, p), PricedNumerator(sc, p), Gap(sc),
                   CACHE_READ * Carry(sc) as real, p.inp / MILLION);
  }

  /** What has to hold for the closed form and the priced break-even to be the same answer: with nothing
      gained by carrying, that delegation does not pay at once either; when it does not pay at once,
      that the gap is zero; and when it does, that the gap does not lift the numerator above zero. */
  predicate FormsAgree(sc: Scenario, p: Prices)
    requires sc.S > 0 && p.inp != 0.0
  {
    if Carry(sc) <= 0 then Delta(sc.(R := 0), p) < 0.0
    else if Delta(sc.(R := 0), p) < 0.0 then Gap(sc) == 0.0
    else PricedNumerator(sc, p) + Gap(sc) <= 0.0
  }

  /** The closed form gives the break-even of the priced sequences exactly then, for every scenario. */
  lemma {:induction false} ClosedFormAgrees(sc: Scenario, p: Prices)
    requires sc.S > 0 && p.inp > 0.0
    ensures ClosedFormR(sc, p) == BreakEvenR(sc, p) <==> FormsAgree(sc, p)
  {
    WhenNever(sc, p);
    if Carry(sc) > 0 {
      if Delta(sc.(R := 0), p) < 0.0 {
        ClosedFormAgreesBetween(sc, p);
      } else {
        NumeratorsDiffer(sc, p);
        QuotientSign(ClosedNumerator(sc, p), CACHE_READ * Carry(sc) as real);
      }
    }
  }

  lemma {:induction false} QuotientSign(x: real, c: real)
    requires c > 0.0
    ensures x / c > 0.0 <==> x > 0.0
  {
    assert x / c * c == x;
  }

  lemma {:induction false} SameOver(x: real, y: real, c: real)
    requires c > 0.0
    ensures x / c == y / c <==> x == y
  {
    assert x / c * c == x && y / c * c == y;
  }

  /** Delegation never pays exactly when it loses at the start and a parent step carries no more inline
      than delegated. */
  lemma {:induction false} WhenNever(sc: Scenario, p: Prices)
    requires sc.S > 0 && p.inp > 0.0
    ensures BreakEvenR(sc, p) == Never <==> Delta(sc.(R := 0), p) < 0.0 && Carry(sc) <= 0
  {
    SlopeIsDifference(sc, p);
    SlopeSign(sc, p);
  }

  /** And then no number of remaining steps pays; in every other scenario some number does. */
  lemma {:induction false} NeverMeansNever(sc: Scenario, p: Prices)
    requires sc.S > 0 && p.inp > 0.0
    ensures BreakEvenR(sc, p) == Never <==> forall n: nat :: !Pays(sc, p, n)
  {
    WhenNever(sc, p);
    var b := BreakEvenR(sc, p);
    if Delta(sc.(R := 0), p) >= 0.0 {
      assert Pays(sc, p, 0);
    } else if b.From? {
      var n: nat := if b.at < 0.0 then 0 else b.at.Floor + 1;
      BreakEvenIsThreshold(sc, p, n);
      assert Pays(sc, p, n);
    } else {
      forall n: nat ensures !Pays(sc, p, n) {
        BreakEvenIsThreshold(sc, p, n);
      }
    }
  }

  /** The condition documented for "never", observations no longer than the report and a turn, is not it:
      such a sub-task can still reach a break-even, because every step also carries a turn of its own. */
  lemma {:induction false} ShortObservationsCanPay()
    ensures var sc, p := Scenario(0, 100, 2, 1500, 100, 50, 200, 10), Prices(5.0, 25.0);
            sc.V <= sc.rho + sc.a && BreakEvenR(sc, p).From?
  {
    var sc, p := Scenario(0, 100, 2, 1500, 100, 50, 200, 10), Prices(5.0, 25.0);
    assert sc.Growth() == 100 && Carry(sc) == 50;
    WhenNever(sc, p);
  }

  lemma {:induction false} StartOf(sc: Scenario, p: Prices, avoided: int, written: int, reported: int)
    requires sc.S > 0 && Avoided(sc) == avoided && Written(sc) == written && Reported(sc) == reported
    ensures Delta(sc.(R := 0), p) == Dollars(p, avoided, -written, -reported)
  {
    DeltaAtZero(sc, p);
  }

  /** A scenario where the two break-evens differ. */
  lemma {:induction false} ClosedFormDiffers()
    ensures var sc, p := Scenario(0, 100, 2, 1500, 100, 50, 200, 10), Prices(5.0, 25.0);
            ClosedFormR(sc, p) != BreakEvenR(sc, p)
  {
    var sc, p := Scenario(0, 100, 2, 1500, 100, 50, 200, 10), Prices(5.0, 25.0);
    assert sc.Growth() == 100 && Carry(sc) == 50 && Gap(sc) == -17.5;
    StartOf(sc, p, -3000, 1650, 150);
    ClosedFormAgrees(sc, p);
  }

  /** A scenario whose break-even is given as 0.0 and whose saving is gone after 38 steps. */
  lemma {:induction false} PaysAtFirstOnly()
    ensures var sc, p := Scenario(100, 0, 2, 0, 1, 0, 200, 10), Prices(5.0, 25.0);
            BreakEvenR(sc, p) == From(0.0) && !Pays(sc, p, 38)
  {
    var sc, p := Scenario(100, 0, 2, 0, 1, 0, 200, 10), Prices(5.0, 25.0);
    assert sc.Growth() == 0 && Carry(sc) == -1;
    GoneAfter(sc, p, 38);
  }

  lemma {:induction false} GoneAfter(sc: Scenario, p: Prices, n: nat)
    requires sc.S > 0 && Avoided(sc) == 100 && Written(sc) == 1 && Reported(sc) == 1 && Carry(sc) == -1
    requires p == Prices(5.0, 25.0) && n == 38
    ensures BreakEvenR(sc, p) == From(0.0) && !Pays(sc, p, n)
  {
    StartOf(sc, p, 100, 1, 1);
    DeltaIsAffine(sc, p, n);
    SlopeOf(sc, p, -1);
    PriceOfExample(p);
  }

  lemma {:induction false} SlopeOf(sc: Scenario, p: Prices, carry: int)
    requires sc.S > 0 && Carry(sc) == carry
    ensures Slope(sc, p) == Times(carry as real, ReadPrice(p))
  {
  }

  lemma {:induction false} PriceOfExample(p: Prices)
    requires p == Prices(5.0, 25.0)
    ensures Dollars(p, 100, -1, -1) >= 0.0
    ensures Dollars(p, 100, -1, -1) + Times(38 as real, Times(-1 as real, ReadPrice(p))) < 0.0
  {
  }
}
