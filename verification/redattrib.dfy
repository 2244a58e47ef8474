/** harness/redattrib.py, red episodes: maximal runs of red rounds of a node's own check. */
module RedAttrib {
  import opened Text
  import opened Seqs

  datatype Episode = Episode(open: int, rounds: seq<int>, close: Option<int>)

  /** What the walk holds: the episodes closed so far, and the rounds of the one still open. */
  datatype Walk = Walk(closed: seq<Episode>, current: seq<int>)

  function Step(w: Walk, r: int, red: set<int>): Walk {
    if r in red then Walk(w.closed, w.current + [r])
    else if w.current != [] then Walk(w.closed + [Episode(w.current[0], w.current, Some(r))], [])
    else w
  }

  function WalkOver(rounds: seq<int>, red: set<int>): Walk {
    if rounds == [] then Walk([], [])
    else Step(WalkOver(rounds[..|rounds| - 1], red), rounds[|rounds| - 1], red)
  }

  function Finish(w: Walk): seq<Episode> {
    w.closed + if w.current == [] then [] else [Episode(w.current[0], w.current, None)]
  }

  function Episodes(rounds: seq<int>, red: set<int>): seq<Episode> {
    Finish(WalkOver(rounds, red))
  }

  method EpisodesFor(rounds: seq<int>, red: set<int>) returns (eps: seq<Episode>)
    ensures eps == Episodes(rounds, red)
  {
    eps := [];
    var cur: Option<Episode> := None;
    for i := 0 to |rounds|
      invariant eps == WalkOver(rounds[..i], red).closed
      invariant var current := WalkOver(rounds[..i], red).current;
                cur == if current == [] then None else Some(Episode(current[0], current, None))
    {
      TakeStep(rounds, i);
      var r := rounds[i];
      if r in red {
        if cur.None? {
          cur := Some(Episode(r, [], None));
        }
        cur := Some(cur.value.(rounds := cur.value.rounds + [r]));
      } else if cur.Some? {
        eps := eps + [cur.value.(close := Some(r))];
        cur := None;
      }
    }
    TakeAll(rounds);
    if cur.Some? {
      eps := eps + [cur.value.(close := None)];
    }
  }

  // ------------------------------------------------------------------ maximal runs

  /** `rounds[i..j]` is a run of red rounds that no neighbour extends. */
  ghost predicate IsMaximalRun(rounds: seq<int>, red: set<int>, i: nat, j: nat) {
    && i < j <= |rounds|
    && (forall k | i <= k < j :: rounds[k] in red)
    && (i > 0 ==> rounds[i - 1] !in red)
    && (j < |rounds| ==> rounds[j] !in red)
  }

  /** The episode such a run makes: closed by the round after it, open if there is none. */
  function EpisodeAt(rounds: seq<int>, i: nat, j: nat): Episode
    requires i < j <= |rounds|
  {
    Episode(rounds[i], rounds[i..j], if j < |rounds| then Some(rounds[j]) else None)
  }

  datatype Span = Span(lo: nat, hi: nat)

  /** How many rounds at the end are red. */
  function Trailing(rounds: seq<int>, red: set<int>): (n: nat)
    ensures n <= |rounds|
  {
    if rounds == [] || rounds[|rounds| - 1] !in red then 0 else 1 + Trailing(rounds[..|rounds| - 1], red)
  }

  lemma {:induction false} TrailingIsRed(rounds: seq<int>, red: set<int>)
    ensures var n := |rounds| - Trailing(rounds, red);
            && (forall k | n <= k < |rounds| :: rounds[k] in red)
            && (n > 0 ==> rounds[n - 1] !in red)
  {
    if rounds != [] && rounds[|rounds| - 1] in red {
      TrailingIsRed(rounds[..|rounds| - 1], red);
    }
  }

  lemma {:induction false} CurrentIsTrailing(rounds: seq<int>, red: set<int>)
    ensures WalkOver(rounds, red).current == rounds[|rounds| - Trailing(rounds, red)..]
  {
    if rounds != [] {
      CurrentIsTrailing(rounds[..|rounds| - 1], red);
    }
  }

  ghost predicate SpanOf(rounds: seq<int>, red: set<int>, s: Span, e: Episode) {
    IsMaximalRun(rounds, red, s.lo, s.hi) && e == EpisodeAt(rounds, s.lo, s.hi)
  }

  /** `spans` place the episodes in the rounds: each is a maximal run, in order, and every red round
      before index `n` lies in one of them. */
  ghost predicate Places(rounds: seq<int>, red: set<int>, spans: seq<Span>, eps: seq<Episode>, n: nat) {
    && |spans| == |eps|
    && (forall k | 0 <= k < |eps| :: SpanOf(rounds, red, spans[k], eps[k]) && spans[k].hi <= n)
    && (forall j, k | 0 <= j < k < |eps| :: spans[j].hi < spans[k].lo)
    && (forall i {:trigger InSome(spans, i)} | 0 <= i < n && i < |rounds| && rounds[i] in red :: InSome(spans, i))
  }

  ghost predicate Below(spans: seq<Span>, n: nat) {
    forall k | 0 <= k < |spans| :: spans[k].hi < n
  }

  ghost predicate InSome(spans: seq<Span>, i: int) {
    exists k :: 0 <= k < |spans| && spans[k].lo <= i < spans[k].hi
  }

  lemma {:induction false} InSomeGrows(spans: seq<Span>, s: Span, i: int)
    ensures InSome(spans, i) ==> InSome(spans + [s], i)
    ensures s.lo <= i < s.hi ==> InSome(spans + [s], i)
  {
    if InSome(spans, i) {
      var k :| 0 <= k < |spans| && spans[k].lo <= i < spans[k].hi;
      assert (spans + [s])[k] == spans[k];
    }
    assert (spans + [s])[|spans|] == s;
  }

  /** Placing one more run, after a round that is not red. */
  lemma {:induction false} PlaceOne(rounds: seq<int>, red: set<int>, spans: seq<Span>, eps: seq<Episode>, lo: nat,
      hi: nat, n: nat)
    requires Places(rounds, red, spans, eps, lo) && IsMaximalRun(rounds, red, lo, hi)
    requires Below(spans, lo)
    requires n == hi || (n == hi + 1 && hi < |rounds| && rounds[hi] !in red)
    ensures Places(rounds, red, spans + [Span(lo, hi)], eps + [EpisodeAt(rounds, lo, hi)], n)
  {
    var s := Span(lo, hi);
    var spans', eps' := spans + [s], eps + [EpisodeAt(rounds, lo, hi)];
    forall k | 0 <= k < |eps'| ensures SpanOf(rounds, red, spans'[k], eps'[k]) && spans'[k].hi <= n {
      if k < |eps| { assert SpanOf(rounds, red, spans[k], eps[k]); }
    }
    forall i | 0 <= i < n && i < |rounds| && rounds[i] in red ensures InSome(spans', i) {
      InSomeGrows(spans, s, i);
    }
  }

  lemma {:induction false} PlacesFurther(rounds: seq<int>, red: set<int>, spans: seq<Span>, eps: seq<Episode>, n: nat)
    requires Places(rounds, red, spans, eps, n) && n < |rounds| && rounds[n] !in red
    ensures Places(rounds, red, spans, eps, n + 1)
  {
  }

  /** The episodes with the run `rounds[lo..hi]`, if it is one, added. */
  function WithRun(eps: seq<Episode>, rounds: seq<int>, lo: nat, hi: nat): seq<Episode>
    requires lo <= hi <= |rounds|
  {
    if lo < hi then eps + [EpisodeAt(rounds, lo, hi)] else eps
  }

  /** What a round that is not red adds to the closed episodes. */
  lemma {:induction false} ClosedStep(rounds: seq<int>, red: set<int>, n: nat, lo: nat)
    requires n < |rounds| && rounds[n] !in red && lo == n - Trailing(rounds[..n], red)
    ensures WalkOver(rounds[..n + 1], red).closed == WithRun(WalkOver(rounds[..n], red).closed, rounds, lo, n)
  {
    TakeStep(rounds, n);
    CurrentIsTrailing(rounds[..n], red);
    assert rounds[..n][lo..] == rounds[lo..n];
  }

  lemma {:induction false} PlaceStep(rounds: seq<int>, red: set<int>, spans: seq<Span>, eps: seq<Episode>, n: nat,
      lo: nat)
    returns (spans': seq<Span>)
    requires n < |rounds| && rounds[n] !in red && lo == n - Trailing(rounds[..n], red)
    requires Places(rounds, red, spans, eps, lo)
    requires Below(spans, lo)
    ensures Places(rounds, red, spans', WithRun(eps, rounds, lo, n), n + 1)
    ensures Below(spans', n + 1)
  {
    if lo < n {
      var s := RunBefore(rounds, red, n);
      assert IsMaximalRun(rounds, red, lo, n);
      PlaceOne(rounds, red, spans, eps, lo, n, n + 1);
      spans' := spans + [s];
    } else {
      PlacesFurther(rounds, red, spans, eps, n);
      spans' := spans;
    }
  }

  /** The closed episodes of a prefix are the maximal runs that end inside it. */
  lemma {:induction false} ClosedAreRuns(rounds: seq<int>, red: set<int>, n: nat) returns (spans: seq<Span>, lo: nat)
    requires n <= |rounds|
    ensures lo == n - Trailing(rounds[..n], red)
    ensures Places(rounds, red, spans, WalkOver(rounds[..n], red).closed, lo)
    ensures Below(spans, lo)
  {
    if n == 0 { return [], 0; }
    TakeStep(rounds, n - 1);
    spans, lo := ClosedAreRuns(rounds, red, n - 1);
    if rounds[n - 1] !in red {
      var closed := WalkOver(rounds[..n - 1], red).closed;
      ClosedStep(rounds, red, n - 1, lo);
      spans := PlaceStep(rounds, red, spans, closed, n - 1, lo);
      lo := n;
    }
  }

  /** The run that a prefix leaves open is maximal, if the next round is not red or there is none. */
  lemma {:induction false} RunBefore(rounds: seq<int>, red: set<int>, n: nat) returns (s: Span)
    requires n <= |rounds| && (n < |rounds| ==> rounds[n] !in red) && Trailing(rounds[..n], red) > 0
    ensures s == Span(n - Trailing(rounds[..n], red), n) && IsMaximalRun(rounds, red, s.lo, s.hi)
    ensures WalkOver(rounds[..n], red).current == rounds[s.lo..s.hi]
  {
    CurrentIsTrailing(rounds[..n], red);
    TrailingIsRed(rounds[..n], red);
    s := Span(n - Trailing(rounds[..n], red), n);
    forall k | s.lo <= k < n ensures rounds[k] in red {
      assert rounds[..n][k] in red;
    }
    assert s.lo > 0 ==> rounds[..n][s.lo - 1] !in red;
  }

  lemma {:induction false} EpisodesEnd(rounds: seq<int>, red: set<int>, lo: nat)
    requires lo == |rounds| - Trailing(rounds, red)
    ensures Episodes(rounds, red) == WithRun(WalkOver(rounds, red).closed, rounds, lo, |rounds|)
  {
    CurrentIsTrailing(rounds, red);
    assert rounds[lo..] == rounds[lo..|rounds|];
  }

  lemma {:induction false} OnlyLastOpen(rounds: seq<int>, red: set<int>, spans: seq<Span>, eps: seq<Episode>, k: nat)
    requires Places(rounds, red, spans, eps, |rounds|) && k < |eps| - 1
    ensures eps[k].close.Some?
  {
    assert SpanOf(rounds, red, spans[k], eps[k]) && SpanOf(rounds, red, spans[k + 1], eps[k + 1]);
  }

  /** `episodes_for` splits the red rounds into maximal runs, in order and apart, covering every red
      round, and only the last can be open. */
  lemma {:induction false} EpisodesAreMaximalRuns(rounds: seq<int>, red: set<int>) returns (spans: seq<Span>)
    ensures Places(rounds, red, spans, Episodes(rounds, red), |rounds|)
    ensures forall k | 0 <= k < |Episodes(rounds, red)| - 1 :: Episodes(rounds, red)[k].close.Some?
  {
    var n, lo := |rounds|, 0;
    TakeAll(rounds);
    spans, lo := ClosedAreRuns(rounds, red, n);
    EpisodesEnd(rounds, red, lo);
    var closed := WalkOver(rounds, red).closed;
    if lo < n {
      var s := RunBefore(rounds, red, n);
      PlaceOne(rounds, red, spans, closed, lo, n, n);
      spans := spans + [s];
    }
    forall k | 0 <= k < |Episodes(rounds, red)| - 1 ensures Episodes(rounds, red)[k].close.Some? {
      OnlyLastOpen(rounds, red, spans, Episodes(rounds, red), k);
    }
  }

  // ------------------------------------------------------------------ windows

  /** A red run open at the end of the window is open at the end of the whole. */
  lemma {:induction false} SuffixCurrent(front: seq<int>, back: seq<int>, red: set<int>)
    ensures WalkOver(back, red).current != [] ==> WalkOver(front + back, red).current != []
    ensures |WalkOver(back, red).closed| <= |WalkOver(front + back, red).closed|
  {
    if back != [] {
      var n := |back| - 1;
      assert (front + back)[..|front + back| - 1] == front + back[..n];
      SuffixCurrent(front, back[..n], red);
    }
  }

  /** The walk asks only whether a round is red. */
  lemma {:induction false} WalkFollowsMembership(rounds: seq<int>, red: set<int>, red': set<int>)
    requires forall r | r in rounds :: r in red <==> r in red'
    ensures WalkOver(rounds, red) == WalkOver(rounds, red')
  {
    if rounds != [] {
      WalkFollowsMembership(rounds[..|rounds| - 1], red, red');
    }
  }

  function Closed(eps: seq<Episode>): seq<Episode> {
    if eps == [] then []
    else Closed(eps[..|eps| - 1]) + if eps[|eps| - 1].close.Some? then [eps[|eps| - 1]] else []
  }

  lemma {:induction false} ClosedOfWalk(rounds: seq<int>, red: set<int>)
    ensures Closed(WalkOver(rounds, red).closed) == WalkOver(rounds, red).closed
    ensures Closed(Episodes(rounds, red)) == WalkOver(rounds, red).closed
  {
    var w := WalkOver(rounds, red);
    if rounds != [] {
      ClosedOfWalk(rounds[..|rounds| - 1], red);
      var v := WalkOver(rounds[..|rounds| - 1], red);
      if w.closed != v.closed { assert w.closed[..|v.closed|] == v.closed; }
    }
    var open := if w.current == [] then [] else [Episode(w.current[0], w.current, None)];
    assert open != [] ==> (w.closed + open)[..|w.closed|] == w.closed;
    assert open == [] ==> w.closed + open == w.closed;
  }

  /** A window never counts more closed episodes than the whole record. */
  lemma {:induction false} WindowClosesNoMore(rounds: seq<int>, red: set<int>, k: nat)
    requires k <= |rounds|
    ensures |Closed(Episodes(rounds[k..], red * Elems(rounds[k..])))| <= |Closed(Episodes(rounds, red))|
  {
    assert rounds[..k] + rounds[k..] == rounds;
    SuffixClosesNoMore(rounds[..k], rounds[k..], red);
  }

  lemma {:induction false} SuffixClosesNoMore(front: seq<int>, back: seq<int>, red: set<int>)
    ensures |Closed(Episodes(back, red * Elems(back)))| <= |Closed(Episodes(front + back, red))|
  {
    WalkFollowsMembership(back, red, red * Elems(back));
    ClosedOfWalk(back, red * Elems(back));
    ClosedOfWalk(front + back, red);
    SuffixCurrent(front, back, red);
  }
}
