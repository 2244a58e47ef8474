/** nuc/dose_response.py: which logins are this program's own, decided two ways. Instants are whole
    seconds, days are numbered. */
module DoseResponseScopes {
  import opened Text
  import opened Seqs
  import opened Order

  datatype Dose = Dose(missing: bool, round: int, firstContact: Option<int>, calls: seq<Option<int>>)

  datatype Scope = Scope(day: int, at: int)

  datatype Result<T> = Ok(value: T) | NoCalls | NoFirstContact

  function Abs(x: int): nat {
    if x < 0 then -x else x
  }

  // ------------------------------------------------------------------ the calls

  function CallsOf(d: Dose): seq<(int, int)> {
    if d.missing then []
    else FlatMap(d.calls, (c: Option<int>) => if c.Some? then [(c.value, d.round)] else [])
  }

  /** Every issued call of the doses that are not missing, with its round. */
  function RoundCalls(doses: seq<Dose>): seq<(int, int)> {
    FlatMap(doses, CallsOf)
  }

  predicate PairLess(a: (int, int), b: (int, int)) {
    a.0 < b.0 || (a.0 == b.0 && a.1 < b.1)
  }

  function Instants(pairs: seq<(int, int)>): seq<int> {
    Map(pairs, (p: (int, int)) => p.0)
  }

  function Times(doses: seq<Dose>): set<int> {
    Elems(Instants(RoundCalls(doses)))
  }

  /** Neither order nor repetition matters to how near the nearest call is. */
  ghost predicate Near(times: set<int>, t: int, within: int) {
    exists c | c in times :: Abs(c - t) <= within
  }

  ghost predicate Nondecreasing(s: seq<int>) {
    forall i, j | 0 <= i < j < |s| :: s[i] <= s[j]
  }

  lemma {:induction false} InInstants(pairs: seq<(int, int)>, c: int)
    ensures c in Instants(pairs) <==> exists p :: p in pairs && p.0 == c
  {
    if pairs != [] {
      var n := |pairs| - 1;
      InInstants(pairs[..n], c);
      assert pairs == pairs[..n] + [pairs[n]];
      if c == pairs[n].0 { assert pairs[n] in pairs; }
    }
  }

  lemma {:induction false} InstantAt(pairs: seq<(int, int)>, i: nat)
    requires i < |pairs|
    ensures Instants(pairs)[i] == pairs[i].0
  {
    if i < |pairs| - 1 { InstantAt(pairs[..|pairs| - 1], i); }
  }

  function SortedTimes(doses: seq<Dose>): seq<int> {
    Arrange(Instants(RoundCalls(doses)), IntLess)
  }

  function SortedCalls(doses: seq<Dose>): seq<(int, int)> {
    Arrange(RoundCalls(doses), PairLess)
  }

  lemma {:induction false} SameMembers<T>(a: seq<T>, b: seq<T>)
    requires multiset(a) == multiset(b)
    ensures |a| == |b| && forall x :: x in a <==> x in b
  {
    assert |multiset(a)| == |a| && |multiset(b)| == |b|;
    forall x ensures x in a <==> x in b {
      assert x in multiset(a) <==> x in multiset(b);
    }
  }

  lemma {:induction false} SortedTimesAre(doses: seq<Dose>)
    ensures Nondecreasing(SortedTimes(doses)) && Elems(SortedTimes(doses)) == Times(doses)
    ensures |SortedTimes(doses)| == |RoundCalls(doses)|
  {
    var calls := Instants(RoundCalls(doses));
    ArrangeIsPermutation(calls, IntLess);
    ArrangeIsArranged(calls, IntLess);
    SameMembers(SortedTimes(doses), calls);
    forall i, j | 0 <= i < j < |calls| ensures SortedTimes(doses)[i] <= SortedTimes(doses)[j] {
      assert !IntLess(SortedTimes(doses)[j], SortedTimes(doses)[i]);
    }
  }

  lemma {:induction false} SortedCallsAre(doses: seq<Dose>)
    ensures Nondecreasing(Instants(SortedCalls(doses))) && Elems(Instants(SortedCalls(doses))) == Times(doses)
    ensures |SortedCalls(doses)| == |RoundCalls(doses)|
    ensures forall p :: p in SortedCalls(doses) <==> p in RoundCalls(doses)
  {
    var calls, sorted := RoundCalls(doses), SortedCalls(doses);
    ArrangeIsPermutation(calls, PairLess);
    ArrangeIsArranged(calls, PairLess);
    SameMembers(sorted, calls);
    forall i, j | 0 <= i < j < |sorted| ensures Instants(sorted)[i] <= Instants(sorted)[j] {
      assert !PairLess(sorted[j], sorted[i]);
      InstantAt(sorted, i);
      InstantAt(sorted, j);
    }
    forall c ensures c in Instants(sorted) <==> c in Instants(calls) {
      InInstants(sorted, c);
      InInstants(calls, c);
    }
  }

  // ------------------------------------------------------------------ the linear search

  /** `min(calls, key=lambda c: abs(c - t))`: the first of the nearest. */
  method Nearest(calls: seq<int>, t: int) returns (near: int)
    requires calls != []
    ensures near in calls && forall c | c in calls :: Abs(near - t) <= Abs(c - t)
  {
    near := calls[0];
    for i := 1 to |calls|
      invariant near in calls
      invariant forall c | c in calls[..i] :: Abs(near - t) <= Abs(c - t)
    {
      TakeStep(calls, i);
      if Abs(calls[i] - t) < Abs(near - t) {
        near := calls[i];
      }
    }
    TakeAll(calls);
  }

  // ------------------------------------------------------------------ the two-neighbour search

  /** How many of the sorted instants come before `t`. */
  function Bisect(secs: seq<int>, t: int): (i: nat)
    ensures i <= |secs|
  {
    if secs == [] then 0
    else if secs[|secs| - 1] < t then |secs|
    else Bisect(secs[..|secs| - 1], t)
  }

  lemma {:induction false} BisectSplits(secs: seq<int>, t: int)
    requires Nondecreasing(secs)
    ensures forall k | 0 <= k < |secs| :: k < Bisect(secs, t) <==> secs[k] < t
  {
    if secs != [] && secs[|secs| - 1] >= t {
      var n := |secs| - 1;
      BisectSplits(secs[..n], t);
      assert forall k | 0 <= k < n :: secs[..n][k] == secs[k];
    }
  }

  method BisectLeft(secs: seq<int>, t: int) returns (lo: nat)
    requires Nondecreasing(secs)
    ensures lo == Bisect(secs, t)
  {
    BisectSplits(secs, t);
    lo := 0;
    var hi := |secs|;
    while lo < hi
      invariant 0 <= lo <= Bisect(secs, t) <= hi <= |secs|
    {
      var mid := (lo + hi) / 2;
      if secs[mid] < t {
        lo := mid + 1;
      } else {
        hi := mid;
      }
    }
  }

  /** The nearer of the calls on either side of `t`, the earlier one on a tie. */
  function Neighbour(calls: seq<(int, int)>, t: int, i: nat): Option<(int, int)>
    requires i <= |calls|
  {
    if i > 0 && (i == |calls| || Abs(calls[i - 1].0 - t) <= Abs(calls[i].0 - t)) then Some(calls[i - 1])
    else if i < |calls| then Some(calls[i])
    else None
  }

  /** The round a scope is put down to, if any call is within `within` seconds. */
  function Attribution(calls: seq<(int, int)>, t: int, within: int): Option<int> {
    var best := Best(calls, t);
    if best.Some? && Abs(best.value.0 - t) <= within then Some(best.value.1) else None
  }

  method Attribute(calls: seq<(int, int)>, secs: seq<int>, t: int, within: int) returns (key: Option<int>)
    requires secs == Instants(calls) && Nondecreasing(secs)
    ensures key == Attribution(calls, t, within)
  {
    var i := BisectLeft(secs, t);
    var best: Option<(int, int)> := None;
    var left: int := i;
    for k := 0 to 2
      invariant k == 0 ==> best == None
      invariant k == 1 ==> best == if i > 0 then Some((calls[i - 1].1, Abs(calls[i - 1].0 - t))) else None
      invariant k == 2 ==>
        best == match Neighbour(calls, t, i) case Some(c) => Some((c.1, Abs(c.0 - t))) case None => None
    {
      var j := left + k - 1;
      if 0 <= j < |calls| {
        var d := Abs(calls[j].0 - t);
        if best.None? || d < best.value.1 {
          best := Some((calls[j].1, d));
        }
      }
    }
    key := if best.Some? && best.value.1 <= within then Some(best.value.0) else None;
  }

  /** One of the two neighbours of `t` is as near as any call. */
  lemma {:induction false} NeighbourIsNearest(calls: seq<(int, int)>, t: int, k: nat)
    requires Nondecreasing(Instants(calls)) && k < |calls|
    ensures var best := Neighbour(calls, t, Bisect(Instants(calls), t));
            best.Some? && Abs(best.value.0 - t) <= Abs(calls[k].0 - t)
  {
    var secs := Instants(calls);
    var i := Bisect(secs, t);
    BisectSplits(secs, t);
    InstantAt(calls, k);
    if i > 0 { InstantAt(calls, i - 1); }
    if i < |calls| { InstantAt(calls, i); }
    assert k < i ==> secs[k] <= secs[i - 1];
    assert i <= k ==> secs[i] <= secs[k];
  }

  function Best(calls: seq<(int, int)>, t: int): Option<(int, int)> {
    Neighbour(calls, t, Bisect(Instants(calls), t))
  }

  lemma {:induction false} BestIsNearest(calls: seq<(int, int)>, t: int, d: int)
    requires Nondecreasing(Instants(calls)) && d in Instants(calls)
    ensures Best(calls, t).Some? && Abs(Best(calls, t).value.0 - t) <= Abs(d - t)
  {
    InInstants(calls, d);
    var p :| p in calls && p.0 == d;
    var k :| 0 <= k < |calls| && calls[k] == p;
    NeighbourIsNearest(calls, t, k);
  }

  /** `p` is a call within reach of `t`, and no call is nearer. */
  ghost predicate IsNearest(p: (int, int), times: set<int>, t: int, within: int) {
    Abs(p.0 - t) <= within && forall d | d in times :: Abs(p.0 - t) <= Abs(d - t)
  }

  lemma {:induction false} AttributionOver(calls: seq<(int, int)>, times: set<int>, t: int, within: int)
    requires Nondecreasing(Instants(calls)) && Elems(Instants(calls)) == times
    ensures var key := Attribution(calls, t, within);
            && (key.Some? <==> Near(times, t, within))
            && (key.Some? ==> exists p :: p in calls && p.1 == key.value && IsNearest(p, times, t, within))
  {
    forall d | d in times ensures Best(calls, t).Some? && Abs(Best(calls, t).value.0 - t) <= Abs(d - t) {
      BestIsNearest(calls, t, d);
    }
    if Best(calls, t).Some? {
      var best := Best(calls, t).value;
      BestIsACall(calls, t);
      InInstants(calls, best.0);
      assert best.0 in times;
    }
  }

  /** The round given is that of a nearest call, and one is given exactly when some call is near. */
  lemma {:induction false} AttributionIsNearest(doses: seq<Dose>, t: int, within: int)
    ensures var key := Attribution(SortedCalls(doses), t, within);
            && (key.Some? <==> Near(Times(doses), t, within))
            && (key.Some? ==> exists p :: p in RoundCalls(doses) && p.1 == key.value
                                          && IsNearest(p, Times(doses), t, within))
  {
    SortedCallsAre(doses);
    AttributionOver(SortedCalls(doses), Times(doses), t, within);
  }

  lemma {:induction false} BestIsACall(calls: seq<(int, int)>, t: int)
    ensures Best(calls, t).Some? ==> Best(calls, t).value in calls
  {
  }

  // ------------------------------------------------------------------ the split by provenance

  function FirstDays(doses: seq<Dose>): seq<int> {
    FlatMap(doses, (d: Dose) => if d.firstContact.Some? then [d.firstContact.value] else [])
  }

  function Least(s: seq<int>): (m: int)
    requires s != []
    ensures m in s && forall x | x in s :: m <= x
  {
    var n := |s| - 1;
    assert s == s[..n] + [s[n]];
    if n == 0 then s[0]
    else
      var m := Least(s[..n]);
      if m <= s[n] then m else s[n]
  }

  /** The scopes before the first day of the transcripts are put aside. */
  function BeforeAmong(scopes: seq<Scope>, first: int): seq<Scope> {
    FlatMap(scopes, (e: Scope) => if e.day < first then [e] else [])
  }

  ghost function OursAmong(scopes: seq<Scope>, first: int, times: set<int>, within: int): seq<Scope> {
    FlatMap(scopes, (e: Scope) => if e.day >= first && Near(times, e.at, within) then [e] else [])
  }

  ghost function TheirsAmong(scopes: seq<Scope>, first: int, times: set<int>, within: int): seq<Scope> {
    FlatMap(scopes, (e: Scope) => if e.day >= first && !Near(times, e.at, within) then [e] else [])
  }

  datatype Provenance = Provenance(ours: seq<Scope>, theirs: seq<Scope>, before: seq<Scope>, union: nat, lo: int,
                                   hi: int)

  predicate Within(a: int, x: int, b: int) {
    a <= x < b
  }

  /** The whole seconds from `a` up to `b`. */
  function Interval(a: int, b: int): set<int> {
    set x: int | a <= x < b && Within(a, x, b)
  }

  /** The time the calls' windows cover. */
  function Covered(calls: seq<int>, within: int): set<int> {
    if calls == [] then {}
    else
      var n := |calls| - 1;
      Covered(calls[..n], within) + Interval(calls[n] - within, calls[n] + within)
  }

  lemma {:induction false} IntervalSize(a: int, b: int)
    ensures |Interval(a, b)| == if a < b then b - a else 0
    decreases b - a
  {
    if a < b {
      IntervalSize(a, b - 1);
      assert Interval(a, b) == Interval(a, b - 1) + {b - 1};
    } else {
      assert Interval(a, b) == {};
    }
  }

  predicate Covers(c: int, within: int, x: int) {
    c - within <= x < c + within
  }

  lemma {:induction false} InCovered(calls: seq<int>, within: int, x: int)
    ensures x in Covered(calls, within) <==> exists i :: 0 <= i < |calls| && Covers(calls[i], within, x)
  {
    if calls != [] {
      var n := |calls| - 1;
      InCovered(calls[..n], within, x);
      if x in Covered(calls[..n], within) {
        var i :| 0 <= i < n && Covers(calls[..n][i], within, x);
        assert Covers(calls[i], within, x);
      }
      if i :| 0 <= i < |calls| && Covers(calls[i], within, x) {
        assert i < n ==> Covers(calls[..n][i], within, x);
      }
      assert x in Interval(calls[n] - within, calls[n] + within) <==> Covers(calls[n], within, x);
    }
  }

  /** Where the window of call `i` starts to add to the time covered so far. */
  function From(calls: seq<int>, within: int, i: nat): int
    requires i < |calls|
  {
    if i > 0 && calls[i] - within <= calls[i - 1] + within then calls[i - 1] + within else calls[i] - within
  }

  lemma {:induction false} NewTime(calls: seq<int>, within: int, i: nat, x: int)
    requires Nondecreasing(calls) && i < |calls|
    ensures x in Interval(From(calls, within, i), calls[i] + within)
       <==> x in Covered(calls[..i + 1], within) && x !in Covered(calls[..i], within)
  {
    TakeStep(calls, i);
    InCovered(calls[..i], within, x);
    if x in Covered(calls[..i], within) {
      var k :| 0 <= k < i && Covers(calls[..i][k], within, x);
      assert calls[k] <= calls[i - 1];
    } else if i > 0 {
      assert !Covers(calls[..i][i - 1], within, x);
    }
  }

  lemma {:induction false} SplitSize(all: set<int>, a: set<int>, b: set<int>)
    requires a <= all && forall x :: x in b <==> x in all && x !in a
    ensures |all| == |a| + |b|
  {
    forall x ensures x in b <==> x in all - a {
    }
    assert b == all - a;
  }

  lemma {:induction false} CoveredGrows(calls: seq<int>, within: int, i: nat)
    requires i < |calls|
    ensures Covered(calls[..i], within) <= Covered(calls[..i + 1], within)
  {
    TakeStep(calls, i);
  }

  /** One more window, from where the covered time so far ends. */
  lemma {:induction false} CoveredStep(calls: seq<int>, within: int, i: nat)
    requires Nondecreasing(calls) && i < |calls|
    ensures var from, b := From(calls, within, i), calls[i] + within;
            |Covered(calls[..i + 1], within)| == |Covered(calls[..i], within)| + if from < b then b - from else 0
  {
    var from, b := From(calls, within, i), calls[i] + within;
    forall x
      ensures x in Interval(from, b) <==> x in Covered(calls[..i + 1], within) && x !in Covered(calls[..i], within)
    {
      NewTime(calls, within, i, x);
    }
    CoveredGrows(calls, within, i);
    SplitSize(Covered(calls[..i + 1], within), Covered(calls[..i], within), Interval(from, b));
    IntervalSize(from, b);
  }

  /** Where the windows so far end: nowhere if they are empty. */
  function LastEnd(calls: seq<int>, within: int, i: nat): Option<int>
    requires i <= |calls|
  {
    if i > 0 && within > 0 then Some(calls[i - 1] + within) else None
  }

  /** The running total of covered time, over the calls in order. */
  method CoveredTime(calls: seq<int>, within: int) returns (union: nat)
    requires Nondecreasing(calls)
    ensures union == |Covered(calls, within)|
  {
    union := 0;
    var last: Option<int> := None;
    for i := 0 to |calls|
      invariant union == |Covered(calls[..i], within)|
      invariant last == LastEnd(calls, within, i)
    {
      CoveredStep(calls, within, i);
      var added;
      last, added := Extend(calls, within, i, last);
      union := union + added;
    }
    TakeAll(calls);
  }

  /** The body of the loop. */
  method Extend(calls: seq<int>, within: int, i: nat, last: Option<int>) returns (last': Option<int>, added: nat)
    requires Nondecreasing(calls) && i < |calls| && last == LastEnd(calls, within, i)
    ensures last' == LastEnd(calls, within, i + 1)
    ensures var from, b := From(calls, within, i), calls[i] + within; added == if from < b then b - from else 0
  {
    assert i > 0 ==> calls[i - 1] <= calls[i];
    last', added := last, 0;
    var a, b := calls[i] - within, calls[i] + within;
    if last.Some? && a <= last.value {
      a := last.value;
    }
    if b > a {
      added := b - a;
      last' := Some(b);
    }
  }

  lemma {:induction false} ThreeParts(all: set<int>, a: set<int>, b: set<int>, c: set<int>)
    requires a <= all && forall x :: x in b || x in c <==> x in all && x !in a
    requires forall x | x in b :: x !in c
    ensures |all| == |a| + |b| + |c|
  {
    forall x ensures x in c <==> x in (b + c) && x !in b {
    }
    SplitSize(b + c, b, c);
    SplitSize(all, a, b + c);
  }

  lemma {:induction false} WindowSize(a: int, within: nat)
    ensures |Interval(a - within, a)| == within && |Interval(a, a + within)| == within
  {
    IntervalSize(a - within, a);
    IntervalSize(a, a + within);
  }

  /** The part of the covered time between the first call and the last. */
  function CoveredInSpan(calls: seq<int>, within: int): set<int>
    requires calls != []
  {
    Covered(calls, within) * Interval(calls[0], calls[|calls| - 1])
  }

  /** The windows reach `within` past both ends of the span the calls cover, so inside the span they
      cover `2 * within` less than the running total. */
  lemma {:induction false} CoveredOutsideTheSpan(calls: seq<int>, within: nat)
    requires Nondecreasing(calls) && calls != []
    ensures |Covered(calls, within)| == |CoveredInSpan(calls, within)| + within + within
  {
    var lo, hi := calls[0], calls[|calls| - 1];
    WindowSize(lo, within);
    WindowSize(hi, within);
    assert lo <= hi;
    forall x ensures x in Interval(lo - within, lo) || x in Interval(hi, hi + within)
                <==> x in Covered(calls, within) && x !in CoveredInSpan(calls, within) {
      OutsideTheSpan(calls, within, x);
    }
    ThreeParts(Covered(calls, within), CoveredInSpan(calls, within), Interval(lo - within, lo),
               Interval(hi, hi + within));
  }

  lemma {:induction false} OutsideTheSpan(calls: seq<int>, within: nat, x: int)
    requires Nondecreasing(calls) && calls != []
    ensures var lo, hi := calls[0], calls[|calls| - 1];
            x in Covered(calls, within) && !(lo <= x < hi) <==> lo - within <= x < lo || hi <= x < hi + within
  {
    var n := |calls| - 1;
    InCovered(calls, within, x);
    if i :| 0 <= i < |calls| && Covers(calls[i], within, x) {
      assert calls[0] <= calls[i] && calls[i] <= calls[n];
    }
    assert calls[0] - within <= x < calls[0] ==> Covers(calls[0], within, x);
    assert calls[n] <= x < calls[n] + within ==> Covers(calls[n], within, x);
  }

  /** The total is more than the whole span when the calls are close together: the rate reported from it
      as a fraction of the span exceeds one. */
  lemma {:induction false} CoveredMoreThanTheSpan()
    ensures |Covered([0, 1], 120)| == 241
  {
    var c := [0, 1];
    CoveredStep(c, 120, 0);
    CoveredStep(c, 120, 1);
    TakeAll(c);
  }

  /** The part of the span between the first call and the last that no window reaches: of each gap
      between neighbours, what is longer than two windows. */
  function Uncovered(calls: seq<int>, within: nat): nat {
    if |calls| < 2 then 0
    else
      var n := |calls| - 1;
      var gap := calls[n] - calls[n - 1];
      Uncovered(calls[..n], within) + if gap > within + within then gap - within - within else 0
  }

  /** The covered time by the gaps: the span and two windows, less what no window reaches. */
  lemma {:induction false} CoveredByGaps(calls: seq<int>, within: nat)
    requires Nondecreasing(calls) && calls != []
    ensures |Covered(calls, within)| + Uncovered(calls, within) == calls[|calls| - 1] - calls[0] + within + within
  {
    var n := |calls| - 1;
    CoveredStep(calls, within, n);
    TakeAll(calls);
    if n > 0 {
      PrefixNondecreasing(calls, n);
      CoveredByGaps(calls[..n], within);
      assert calls[n - 1] <= calls[n];
    }
  }

  lemma {:induction false} PrefixNondecreasing(calls: seq<int>, n: nat)
    requires Nondecreasing(calls) && n <= |calls|
    ensures Nondecreasing(calls[..n])
  {
  }

  /** The running total over the span is the part of the span in reach of a call, as it is reported to be,
      exactly when the windows are empty. */
  lemma {:induction false} WhenTotalIsInSpan(calls: seq<int>, within: int)
    requires Nondecreasing(calls) && calls != []
    ensures |Covered(calls, within)| == |CoveredInSpan(calls, within)| <==> within <= 0
  {
    if within >= 0 {
      CoveredOutsideTheSpan(calls, within);
    } else {
      NothingCovered(calls, within);
    }
  }

  lemma {:induction false} NothingCovered(calls: seq<int>, within: int)
    requires within < 0
    ensures Covered(calls, within) == {}
  {
    forall x ensures x !in Covered(calls, within) {
      InCovered(calls, within, x);
    }
  }

  /** And it is at most the span exactly when the gaps leave at least two windows unreached. */
  lemma {:induction false} WhenTotalFitsTheSpan(calls: seq<int>, within: nat)
    requires Nondecreasing(calls) && calls != []
    ensures |Covered(calls, within)| <= calls[|calls| - 1] - calls[0] <==> Uncovered(calls, within) >= within + within
  {
    CoveredByGaps(calls, within);
  }

  method SplitByProvenance(scopes: seq<Scope>, doses: seq<Dose>, within: int) returns (r: Result<Provenance>)
    ensures r == NoCalls <==> RoundCalls(doses) == []
    ensures r == NoFirstContact <==> RoundCalls(doses) != [] && FirstDays(doses) == []
    ensures r.Ok? ==> var first := Least(FirstDays(doses));
      && r.value.before == BeforeAmong(scopes, first)
      && r.value.ours == OursAmong(scopes, first, Times(doses), within)
      && r.value.theirs == TheirsAmong(scopes, first, Times(doses), within)
    ensures r.Ok? ==> r.value.union == |Covered(SortedTimes(doses), within)|
    ensures r.Ok? ==> var calls := SortedTimes(doses);
      calls != [] && r.value.lo == calls[0] && r.value.hi == calls[|calls| - 1]
  {
    var calls := SortedTimes(doses);
    SortedTimesAre(doses);
    if calls == [] {
      return NoCalls;
    }
    if FirstDays(doses) == [] {
      return NoFirstContact;
    }
    var first := Least(FirstDays(doses));
    var ours, theirs, before := [], [], [];
    for i := 0 to |scopes|
      invariant before == BeforeAmong(scopes[..i], first)
      invariant ours == OursAmong(scopes[..i], first, Times(doses), within)
      invariant theirs == TheirsAmong(scopes[..i], first, Times(doses), within)
    {
      TakeStep(scopes, i);
      var e := scopes[i];
      if e.day < first {
        before := before + [e];
        continue;
      }
      var near := IsNear(calls, Times(doses), e.at, within);
      if near {
        ours := ours + [e];
      } else {
        theirs := theirs + [e];
      }
    }
    TakeAll(scopes);
    var union := CoveredTime(calls, within);
    r := Ok(Provenance(ours, theirs, before, union, calls[0], calls[|calls| - 1]));
  }

  /** Some round that has a transcript made a call within reach of the instant. */
  ghost predicate InReach(doses: seq<Dose>, t: int, within: int) {
    exists d, c :: d in doses && !d.missing && Some(c) in d.calls && Abs(c - t) <= within
  }

  lemma {:induction false} TimesAre(doses: seq<Dose>, c: int)
    ensures c in Times(doses) <==> exists d :: d in doses && !d.missing && Some(c) in d.calls
  {
    InInstants(RoundCalls(doses), c);
    if p :| p in RoundCalls(doses) && p.0 == c {
      InFlatMap(doses, CallsOf, p);
      var d :| d in doses && p in CallsOf(d);
      InCalls(d, p);
    }
    if d :| d in doses && !d.missing && Some(c) in d.calls {
      InCalls(d, (c, d.round));
      InFlatMap(doses, CallsOf, (c, d.round));
    }
  }

  lemma {:induction false} InCalls(d: Dose, p: (int, int))
    ensures p in CallsOf(d) <==> !d.missing && Some(p.0) in d.calls && p.1 == d.round
  {
    var of := (c: Option<int>) => if c.Some? then [(c.value, d.round)] else [];
    InFlatMap(d.calls, of, p);
    if Some(p.0) in d.calls { assert p.1 == d.round ==> p in of(Some(p.0)); }
  }

  lemma {:induction false} NearIsInReach(doses: seq<Dose>, t: int, within: int)
    ensures Near(Times(doses), t, within) <==> InReach(doses, t, within)
  {
    if c :| c in Times(doses) && Abs(c - t) <= within { TimesAre(doses, c); }
    if d, c :| d in doses && !d.missing && Some(c) in d.calls && Abs(c - t) <= within { TimesAre(doses, c); }
  }

  /** Every login lands in exactly one of the three lists: before the transcripts begin, ours when some round's
      call is within reach of it, and otherwise somebody else's. */
  lemma {:induction false} ProvenanceSays(scopes: seq<Scope>, doses: seq<Dose>, first: int, within: int, e: Scope)
    ensures e in BeforeAmong(scopes, first) <==> e in scopes && e.day < first
    ensures e in OursAmong(scopes, first, Times(doses), within)
       <==> e in scopes && e.day >= first && InReach(doses, e.at, within)
    ensures e in TheirsAmong(scopes, first, Times(doses), within)
       <==> e in scopes && e.day >= first && !InReach(doses, e.at, within)
  {
    NearIsInReach(doses, e.at, within);
    InFlatMap(scopes, (s: Scope) => if s.day < first then [s] else [], e);
    InFlatMap(scopes, (s: Scope) => if s.day >= first && Near(Times(doses), s.at, within) then [s] else [], e);
    InFlatMap(scopes, (s: Scope) => if s.day >= first && !Near(Times(doses), s.at, within) then [s] else [], e);
  }

  /** And none is dropped or counted twice. */
  lemma {:induction false} ProvenanceConserves(scopes: seq<Scope>, first: int, times: set<int>, within: int)
    ensures |BeforeAmong(scopes, first)| + |OursAmong(scopes, first, times, within)|
            + |TheirsAmong(scopes, first, times, within)| == |scopes|
  {
    if scopes != [] { ProvenanceConserves(scopes[..|scopes| - 1], first, times, within); }
  }

  /** The corpus begins on the first day any round, with a transcript or without, made contact. */
  lemma {:induction false} FirstDaySays(doses: seq<Dose>, day: int)
    ensures day in FirstDays(doses) <==> exists d :: d in doses && d.firstContact == Some(day)
    ensures FirstDays(doses) != [] ==> Least(FirstDays(doses)) in FirstDays(doses)
                                       && forall x | x in FirstDays(doses) :: Least(FirstDays(doses)) <= x
  {
    InFlatMap(doses, (d: Dose) => if d.firstContact.Some? then [d.firstContact.value] else [], day);
  }

  method IsNear(calls: seq<int>, ghost times: set<int>, t: int, within: int) returns (r: bool)
    requires calls != [] && Elems(calls) == times
    ensures r <==> Near(times, t, within)
  {
    var near := Nearest(calls, t);
    r := Abs(near - t) <= within;
    assert near in times;
    assert forall c | c in times :: c in calls;
  }

  // ------------------------------------------------------------------ the split by round

  /** A dict of lists in insertion order: the scopes put down to each round, or to none. */
  type Blocks = seq<(Option<int>, seq<Scope>)>

  /** `blocks.setdefault(key, []).append(e)`. */
  function AddTo(blocks: Blocks, key: Option<int>, e: Scope): Blocks {
    if blocks == [] then [(key, [e])]
    else if blocks[0].0 == key then [(key, blocks[0].1 + [e])] + blocks[1..]
    else [blocks[0]] + AddTo(blocks[1..], key, e)
  }

  function GetBlock(blocks: Blocks, key: Option<int>): seq<Scope> {
    if blocks == [] then [] else if blocks[0].0 == key then blocks[0].1 else GetBlock(blocks[1..], key)
  }

  /** How many scopes are put down to some round. */
  function CountOurs(blocks: Blocks): nat {
    if blocks == [] then 0
    else (if blocks[0].0.Some? then |blocks[0].1| else 0) + CountOurs(blocks[1..])
  }

  lemma {:induction false} AddToGets(blocks: Blocks, key: Option<int>, e: Scope, k: Option<int>)
    ensures GetBlock(AddTo(blocks, key, e), k) == GetBlock(blocks, k) + if k == key then [e] else []
    ensures CountOurs(AddTo(blocks, key, e)) == CountOurs(blocks) + if key.Some? then 1 else 0
  {
    if blocks != [] && blocks[0].0 != key { AddToGets(blocks[1..], key, e, k); }
  }

  /** The scopes put down to one key, in order. */
  function BlockAmong(scopes: seq<Scope>, first: int, calls: seq<(int, int)>, within: int,
      key: Option<int>): seq<Scope> {
    FlatMap(scopes, (e: Scope) => if e.day >= first && Attribution(calls, e.at, within) == key then [e] else [])
  }

  function BlocksOf(scopes: seq<Scope>, first: int, calls: seq<(int, int)>, within: int): Blocks {
    if scopes == [] then []
    else
      var n := |scopes| - 1;
      var blocks := BlocksOf(scopes[..n], first, calls, within);
      if scopes[n].day < first then blocks
      else AddTo(blocks, Attribution(calls, scopes[n].at, within), scopes[n])
  }

  lemma {:induction false} BlocksAre(scopes: seq<Scope>, first: int, calls: seq<(int, int)>, within: int,
      key: Option<int>)
    ensures GetBlock(BlocksOf(scopes, first, calls, within), key) == BlockAmong(scopes, first, calls, within, key)
  {
    if scopes != [] {
      var n := |scopes| - 1;
      BlocksAre(scopes[..n], first, calls, within, key);
      AddToGets(BlocksOf(scopes[..n], first, calls, within), Attribution(calls, scopes[n].at, within), scopes[n], key);
    }
  }

  datatype Rounds = Rounds(blocks: Blocks, before: nat, ours: nat, theirs: nat)

  method SplitByRound(scopes: seq<Scope>, doses: seq<Dose>, within: int) returns (r: Result<Rounds>)
    ensures r == NoCalls <==> RoundCalls(doses) == []
    ensures r == NoFirstContact <==> RoundCalls(doses) != [] && FirstDays(doses) == []
    ensures r.Ok? ==> var first := Least(FirstDays(doses));
      && r.value.blocks == BlocksOf(scopes, first, SortedCalls(doses), within)
      && r.value.before == |BeforeAmong(scopes, first)|
      && r.value.ours == CountOurs(r.value.blocks) && r.value.theirs == |GetBlock(r.value.blocks, None)|
  {
    var calls := SortedCalls(doses);
    SortedCallsAre(doses);
    if calls == [] {
      return NoCalls;
    }
    if FirstDays(doses) == [] {
      return NoFirstContact;
    }
    var secs := Instants(calls);
    var first := Least(FirstDays(doses));
    var blocks: Blocks, before := [], 0;
    for i := 0 to |scopes|
      invariant before == |BeforeAmong(scopes[..i], first)|
      invariant blocks == BlocksOf(scopes[..i], first, calls, within)
    {
      TakeStep(scopes, i);
      var e := scopes[i];
      if e.day < first {
        before := before + 1;
        continue;
      }
      var key := Attribute(calls, secs, e.at, within);
      blocks := AddTo(blocks, key, e);
    }
    TakeAll(scopes);
    r := Ok(Rounds(blocks, before, CountOurs(blocks), |GetBlock(blocks, None)|));
  }

  /** The two searches split the scopes alike: the scopes with no round are the ones that are not ours,
      and the others add up to the ones that are. */
  lemma {:induction false} SplitsAgree(scopes: seq<Scope>, doses: seq<Dose>, first: int, within: int)
    ensures var blocks := BlocksOf(scopes, first, SortedCalls(doses), within);
            && GetBlock(blocks, None) == TheirsAmong(scopes, first, Times(doses), within)
            && CountOurs(blocks) == |OursAmong(scopes, first, Times(doses), within)|
  {
    if scopes != [] {
      var n := |scopes| - 1;
      var calls := SortedCalls(doses);
      SplitsAgree(scopes[..n], doses, first, within);
      AttributionIsNearest(doses, scopes[n].at, within);
      AddToGets(BlocksOf(scopes[..n], first, calls, within), Attribution(calls, scopes[n].at, within), scopes[n], None);
    }
  }
}
