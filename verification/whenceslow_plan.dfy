/** harness/whenceslow.py, the planner: which units a slice runs next. */
module WhencePlan {
  import opened Order
  import opened Seqs
  import opened Text
  import opened WhenceSlow

  /** What the status view says of one unit; `prior` is the test file's size as a fraction of a second. */
  datatype UnitRow = UnitRow(
    unit: string, state: State, outcome: Option<Outcome>,
    finishedAt: Option<real>, seconds: Option<real>, prior: real)

  predicate FailingButStale(r: UnitRow) {
    r.outcome == Some(Failed) && !Conclusive(r.state)
  }

  /** The first two parts of the sort key: inconclusive units first, of those the last recorded red. */
  function Rank(r: UnitRow): nat {
    (if Conclusive(r.state) then 2 else 0) + (if FailingButStale(r) then 0 else 1)
  }

  function Finished(r: UnitRow): real {
    if r.finishedAt.Some? then r.finishedAt.value else 0.0
  }

  /** `seconds or default`: a recorded 0.0 counts as never measured. */
  function Estimate(r: UnitRow, default: real): real {
    if r.seconds.Some? && r.seconds.value != 0.0 then r.seconds.value else default
  }

  function SortEstimate(r: UnitRow, default: real): real {
    if r.seconds.Some? && r.seconds.value != 0.0 then r.seconds.value else default + r.prior
  }

  predicate Earlier(a: UnitRow, b: UnitRow, default: real) {
    Rank(a) < Rank(b) || (Rank(a) == Rank(b) && EarlierInRank(a, b, default))
  }

  predicate EarlierInRank(a: UnitRow, b: UnitRow, default: real) {
    Finished(a) < Finished(b) || (Finished(a) == Finished(b) && CheaperOrNamed(a, b, default))
  }

  predicate CheaperOrNamed(a: UnitRow, b: UnitRow, default: real) {
    || SortEstimate(a, default) < SortEstimate(b, default)
    || (SortEstimate(a, default) == SortEstimate(b, default) && Less(a.unit, b.unit))
  }

  function Spend(rows: seq<UnitRow>, default: real): real {
    if rows == [] then 0.0 else Spend(rows[..|rows| - 1], default) + Estimate(rows[|rows| - 1], default)
  }

  function Ordered(rows: seq<UnitRow>, default: real): seq<UnitRow> {
    Arrange(rows, (a: UnitRow, b: UnitRow) => Earlier(a, b, default))
  }

  /** The pass over the ordered rows. */
  function Walk(ks: seq<UnitRow>, picked: seq<UnitRow>, budget: real, default: real): seq<UnitRow>
    decreases |ks|
  {
    if ks == [] then picked
    else if picked != [] && Spend(picked, default) + Estimate(ks[0], default) > budget then
      Walk(ks[1..], picked, budget, default)
    else if Spend(picked, default) + Estimate(ks[0], default) >= budget then picked + [ks[0]]
    else Walk(ks[1..], picked + [ks[0]], budget, default)
  }

  function Picks(rows: seq<UnitRow>, budget: real, default: real): seq<UnitRow> {
    Walk(Ordered(rows, default), [], budget, default)
  }

  function Names(rows: seq<UnitRow>): seq<string> {
    Map(rows, (r: UnitRow) => r.unit)
  }

  lemma {:induction false} NamesAdd(rows: seq<UnitRow>, r: UnitRow)
    ensures Names(rows + [r]) == Names(rows) + [r.unit]
  {
    assert (rows + [r])[..|rows|] == rows;
  }

  lemma {:induction false} SpendAdd(rows: seq<UnitRow>, r: UnitRow, default: real)
    ensures Spend(rows + [r], default) == Spend(rows, default) + Estimate(r, default)
  {
    assert (rows + [r])[..|rows|] == rows;
  }

  method Plan(rows: seq<UnitRow>, budget: real, default: real) returns (picked: seq<string>)
    ensures picked == Names(Picks(rows, budget, default))
  {
    picked := PlanOver(Ordered(rows, default), budget, default);
  }

  method PlanOver(ks: seq<UnitRow>, budget: real, default: real) returns (picked: seq<string>)
    ensures picked == Names(Walk(ks, [], budget, default))
  {
    picked := [];
    var spent := 0.0;
    ghost var taken: seq<UnitRow> := [];
    var i := 0;
    while i < |ks|
      invariant 0 <= i <= |ks|
      invariant picked == Names(taken) && spent == Spend(taken, default)
      invariant Walk(ks[i..], taken, budget, default) == Walk(ks, [], budget, default)
    {
      var r := ks[i];
      assert ks[i..][0] == r && ks[i..][1..] == ks[i + 1..];
      i := i + 1;
      var est := Estimate(r, default);
      if picked != [] && spent + est > budget {
        continue;
      }
      NamesAdd(taken, r);
      SpendAdd(taken, r, default);
      taken := taken + [r];
      picked := picked + [r.unit];
      spent := spent + est;
      if spent >= budget {
        break;
      }
    }
  }

  // ------------------------------------------------------------------ the order

  lemma {:induction false} EarlierAsymmetric(a: UnitRow, b: UnitRow, default: real)
    ensures Earlier(a, b, default) ==> !Earlier(b, a, default)
  {
    LessTrichotomy(a.unit, a.unit);
    if Less(a.unit, b.unit) && Less(b.unit, a.unit) { LessTransitive(a.unit, b.unit, a.unit); }
  }

  lemma {:induction false} EarlierSplits(a: UnitRow, b: UnitRow, c: UnitRow, default: real)
    requires Earlier(a, c, default)
    ensures Earlier(a, b, default) || Earlier(b, c, default)
  {
    if Less(a.unit, c.unit) {
      LessTrichotomy(a.unit, b.unit);
      if Less(b.unit, a.unit) { LessTransitive(b.unit, a.unit, c.unit); }
    }
  }

  /** The pass sees the same rows, and starts with one that none comes before. */
  lemma {:induction false} OrderedHead(rows: seq<UnitRow>, default: real)
    ensures forall r :: r in Ordered(rows, default) <==> r in rows
    ensures |Ordered(rows, default)| == |rows|
    ensures rows != [] ==> forall r | r in rows :: !Earlier(r, Ordered(rows, default)[0], default)
  {
    var before := (a: UnitRow, b: UnitRow) => Earlier(a, b, default);
    var ks := Ordered(rows, default);
    forall a, b ensures before(a, b) ==> !before(b, a) { EarlierAsymmetric(a, b, default); }
    forall a, b, c ensures before(a, c) ==> before(a, b) || before(b, c) {
      if before(a, c) { EarlierSplits(a, b, c, default); }
    }
    ArrangeIsPermutation(rows, before);
    ArrangeIsArranged(rows, before);
    SameMembers(ks, rows);
    forall r | r in rows && rows != [] ensures !Earlier(r, ks[0], default) {
      var i :| 0 <= i < |ks| && ks[i] == r;
      if i == 0 { EarlierAsymmetric(r, r, default); } else { assert !before(ks[i], ks[0]); }
    }
  }

  lemma {:induction false} SameMembers(a: seq<UnitRow>, b: seq<UnitRow>)
    requires multiset(a) == multiset(b)
    ensures (forall r :: r in a <==> r in b) && |a| == |b|
  {
    forall r ensures r in a <==> r in b {
      assert r in a <==> r in multiset(a);
      assert r in b <==> r in multiset(b);
    }
    assert |multiset(a)| == |a| && |multiset(b)| == |b|;
  }

  /** The order of the pass, on what the status says: a unit without a conclusive state never comes after one
      with it; of those without, one whose last recorded run was red never after one whose was not; of equals,
      the one run longer ago first, and never run is longest ago; and of those the cheaper, then the name. */
  lemma {:induction false} OrderSays(rows: seq<UnitRow>, default: real, i: nat, j: nat)
    requires i < j < |Ordered(rows, default)|
    ensures var a, b := Ordered(rows, default)[i], Ordered(rows, default)[j];
            var red, red' := a.outcome == Some(Failed), b.outcome == Some(Failed);
            && (Conclusive(a.state) ==> Conclusive(b.state))
            && (!Conclusive(a.state) && !Conclusive(b.state) && red' ==> red)
            && (Conclusive(a.state) == Conclusive(b.state) && (Conclusive(a.state) || red == red') ==>
                  && Finished(a) <= Finished(b)
                  && (Finished(a) == Finished(b) ==> SortEstimate(a, default) <= SortEstimate(b, default)))
            && (a.finishedAt.None? ==> Finished(a) == 0.0) && (a.finishedAt.Some? ==> Finished(a) == a.finishedAt.value)
  {
    var before := (a: UnitRow, b: UnitRow) => Earlier(a, b, default);
    EarlierIsStrictWeak(default);
    ArrangeIsArranged(rows, before);
    assert !before(Ordered(rows, default)[j], Ordered(rows, default)[i]);
  }

  lemma {:induction false} EarlierIsStrictWeak(default: real)
    ensures StrictWeak((a: UnitRow, b: UnitRow) => Earlier(a, b, default))
  {
    var before := (a: UnitRow, b: UnitRow) => Earlier(a, b, default);
    forall a, b ensures before(a, b) ==> !before(b, a) { EarlierAsymmetric(a, b, default); }
    forall a, b, c ensures before(a, c) ==> before(a, b) || before(b, c) {
      if before(a, c) { EarlierSplits(a, b, c, default); }
    }
  }

  /** What a unit is taken to cost: its last run, and the default when it has none or took no time; only in the
      order does the size of its file count, and only in the second case. */
  lemma {:induction false} EstimateSays(r: UnitRow, default: real)
    ensures r.seconds.None? || r.seconds == Some(0.0) ==> Spend([r], default) == default
    ensures r.seconds.Some? && r.seconds.value != 0.0 ==> Spend([r], default) == r.seconds.value
    ensures SortEstimate(r, default) == Spend([r], default)
                                        + if r.seconds.None? || r.seconds == Some(0.0) then r.prior else 0.0
  {
    assert [r][..0] == [];
  }

  // ------------------------------------------------------------------ one slice

  lemma {:induction false} WalkFits(ks: seq<UnitRow>, picked: seq<UnitRow>, budget: real, default: real)
    requires |picked| <= 1 || Spend(picked, default) <= budget
    ensures var out := Walk(ks, picked, budget, default); |out| <= 1 || Spend(out, default) <= budget
    decreases |ks|
  {
    if ks != [] {
      SpendAdd(picked, ks[0], default);
      if picked != [] && Spend(picked, default) + Estimate(ks[0], default) > budget {
        WalkFits(ks[1..], picked, budget, default);
      } else if Spend(picked, default) + Estimate(ks[0], default) < budget {
        WalkFits(ks[1..], picked + [ks[0]], budget, default);
      }
    }
  }

  lemma {:induction false} WalkExtends(ks: seq<UnitRow>, picked: seq<UnitRow>, budget: real, default: real)
    ensures picked <= Walk(ks, picked, budget, default)
    ensures forall r | r in Walk(ks, picked, budget, default) :: r in picked || r in ks
    decreases |ks|
  {
    if ks != [] {
      WalkExtends(ks[1..], picked, budget, default);
      WalkExtends(ks[1..], picked + [ks[0]], budget, default);
    }
  }

  /** The first row in order is always picked first, whatever it costs. */
  lemma {:induction false} HeadIsPicked(rows: seq<UnitRow>, budget: real, default: real)
    requires rows != []
    ensures var out := Picks(rows, budget, default); out != [] && out[0] == Ordered(rows, default)[0]
    ensures forall r | r in Picks(rows, budget, default) :: r in rows
  {
    var ks := Ordered(rows, default);
    OrderedHead(rows, default);
    WalkExtends(ks, [], budget, default);
    WalkExtends(ks[1..], [ks[0]], budget, default);
    assert [] + [ks[0]] == [ks[0]];
  }

  /** A slice's estimates stay inside the budget, or it is a single unit: a free unit does not let an
      expensive one in, as it does in the replay. */
  lemma {:induction false} PlanFits(rows: seq<UnitRow>, budget: real, default: real)
    requires rows != []
    ensures var out := Picks(rows, budget, default);
            && 1 <= |out| <= |rows|
            && (|out| == 1 || Spend(out, default) <= budget)
  {
    HeadIsPicked(rows, budget, default);
    OrderedHead(rows, default);
    WalkFits(Ordered(rows, default), [], budget, default);
    WalkLength(Ordered(rows, default), [], budget, default);
  }

  lemma {:induction false} WalkLength(ks: seq<UnitRow>, picked: seq<UnitRow>, budget: real, default: real)
    ensures |Walk(ks, picked, budget, default)| <= |picked| + |ks|
    decreases |ks|
  {
    if ks != [] {
      WalkLength(ks[1..], picked, budget, default);
      WalkLength(ks[1..], picked + [ks[0]], budget, default);
    }
  }

  /** What the ledger records: no run took less than no time. */
  predicate Measured(rows: seq<UnitRow>, default: real) {
    default > 0.0 && forall r | r in rows :: r.seconds.Some? ==> r.seconds.value >= 0.0
  }

  lemma {:induction false} SpendGrows(a: seq<UnitRow>, b: seq<UnitRow>, default: real)
    requires a <= b && Measured(b, default)
    ensures 0.0 <= Spend(a, default) <= Spend(b, default)
    decreases |b|
  {
    if b != [] {
      var front := b[..|b| - 1];
      forall r | r in front ensures r in b {
      }
      assert b[|b| - 1] in b;
      if |a| == |b| {
        assert a == b;
        SpendGrows(front, front, default);
      } else {
        SpendGrows(a, front, default);
      }
    }
  }

  lemma {:induction false} WalkIsMaximal(ks: seq<UnitRow>, picked: seq<UnitRow>, budget: real, default: real,
      r: UnitRow)
    requires Measured(ks, default) && Measured(picked, default) && r in ks
    ensures var out := Walk(ks, picked, budget, default);
            r in out || Spend(out, default) + Estimate(r, default) > budget
    decreases |ks|
  {
    var out := Walk(ks, picked, budget, default);
    var head, rest := ks[0], ks[1..];
    assert ks == [head] + rest && head in ks;
    assert Measured(rest, default) && Measured(picked + [head], default);
    WalkExtends(ks, picked, budget, default);
    assert Measured(out, default);
    SpendGrows(picked, out, default);
    if picked != [] && Spend(picked, default) + Estimate(head, default) > budget {
      if r != head { WalkIsMaximal(rest, picked, budget, default, r); }
    } else {
      WalkExtends(rest, picked + [head], budget, default);
      assert out == picked + [head] || picked + [head] <= out;
      assert out[|picked|] == head;
      if Spend(picked, default) + Estimate(head, default) >= budget {
        SpendAdd(picked, head, default);
      } else if r != head {
        WalkIsMaximal(rest, picked + [head], budget, default, r);
      }
    }
  }

  /** No row that was left out would still fit beside the picked ones. */
  lemma {:induction false} PlanIsMaximal(rows: seq<UnitRow>, budget: real, default: real, r: UnitRow)
    requires Measured(rows, default) && r in rows
    ensures var out := Picks(rows, budget, default);
            r in out || Spend(out, default) + Estimate(r, default) > budget
  {
    OrderedHead(rows, default);
    WalkIsMaximal(Ordered(rows, default), [], budget, default, r);
  }

  predicate Dear(r: UnitRow, budget: real, default: real) {
    Estimate(r, default) > budget
  }

  lemma {:induction false} LaterPicksFit(ks: seq<UnitRow>, picked: seq<UnitRow>, budget: real, default: real,
      r: UnitRow)
    requires Measured(ks, default) && Measured(picked, default) && picked != []
    requires r in Walk(ks, picked, budget, default) && r !in picked
    ensures !Dear(r, budget, default)
    decreases |ks|
  {
    if ks != [] {
      var head, rest := ks[0], ks[1..];
      assert ks == [head] + rest && head in ks;
      assert Measured(rest, default) && Measured(picked + [head], default);
      SpendGrows([], picked, default);
      if Spend(picked, default) + Estimate(head, default) > budget {
        LaterPicksFit(rest, picked, budget, default, r);
      } else if r != head {
        LaterPicksFit(rest, picked + [head], budget, default, r);
      }
    }
  }

  /** A unit that alone exceeds the budget is picked exactly when it comes first, and then alone. */
  lemma {:induction false} WhenDearIsPicked(rows: seq<UnitRow>, budget: real, default: real, r: UnitRow)
    requires Measured(rows, default) && r in rows && Dear(r, budget, default)
    ensures r in Picks(rows, budget, default) <==> r == Ordered(rows, default)[0]
    ensures r in Picks(rows, budget, default) ==> Picks(rows, budget, default) == [r]
  {
    var ks := Ordered(rows, default);
    OrderedHead(rows, default);
    HeadIsPicked(rows, budget, default);
    assert [] + [ks[0]] == [ks[0]] && ks[0] in ks;
    if r in Picks(rows, budget, default) && r != ks[0] {
      assert Estimate(ks[0], default) < budget;
      assert Measured(ks[1..], default) && Measured([ks[0]], default);
      LaterPicksFit(ks[1..], [ks[0]], budget, default, r);
    }
  }

  /** The documented rule, a unit too long for the budget is returned only when nothing else fits, holds
      exactly when the first in order fits or nothing fits. */
  lemma {:induction false} WhenDearIsLastResort(rows: seq<UnitRow>, budget: real, default: real)
    requires Measured(rows, default) && rows != []
    ensures ((exists r :: r in Picks(rows, budget, default) && Dear(r, budget, default))
             ==> forall r | r in rows :: Dear(r, budget, default))
       <==> || !Dear(Ordered(rows, default)[0], budget, default)
            || forall r | r in rows :: Dear(r, budget, default)
  {
    var first := Ordered(rows, default)[0];
    OrderedHead(rows, default);
    HeadIsPicked(rows, budget, default);
    assert first in Ordered(rows, default) && first in Picks(rows, budget, default);
    if r :| r in Picks(rows, budget, default) && Dear(r, budget, default) {
      WhenDearIsPicked(rows, budget, default, r);
    }
  }

  /** It fails: a unit never run comes before a cheap measured one, and is returned alone. */
  lemma {:induction false} DearComesFirst()
    ensures var slow := UnitRow("a", Unknown, None, None, None, 0.0);
            var quick := UnitRow("b", FreshPass, Some(Passed), Some(1.0), Some(5.0), 0.0);
            Picks([quick, slow], 60.0, 120.0) == [slow] && Estimate(quick, 120.0) <= 60.0
  {
    var slow := UnitRow("a", Unknown, None, None, None, 0.0);
    var quick := UnitRow("b", FreshPass, Some(Passed), Some(1.0), Some(5.0), 0.0);
    var rows := [quick, slow];
    OrderedHead(rows, 120.0);
    assert Earlier(slow, quick, 120.0) && slow in rows;
    assert Ordered(rows, 120.0)[0] in rows;
    WhenDearIsPicked(rows, 60.0, 120.0, slow);
  }

  // ------------------------------------------------------------------ no unit starves

  function Units(rows: seq<UnitRow>): set<string> {
    set r | r in rows :: r.unit
  }

  predicate DistinctUnits(rows: seq<UnitRow>) {
    forall r, s | r in rows && s in rows && r.unit == s.unit :: r == s
  }

  function RowOf(rows: seq<UnitRow>, u: string): (r: UnitRow)
    requires u in Units(rows)
    ensures r in rows && r.unit == u
  {
    if rows[0].unit == u then rows[0]
    else
      assert rows == [rows[0]] + rows[1..];
      RowOf(rows[1..], u)
  }

  function FinishedOf(rows: seq<UnitRow>, u: string): real
    requires u in Units(rows)
  {
    Finished(RowOf(rows, u))
  }

  /** From one slice to the next: what was run finished after everything known before, and what was not
      run has the finish time it had. States, outcomes and prices may change in any way. */
  ghost predicate NextRound(rows: seq<UnitRow>, rows': seq<UnitRow>, ran: set<string>) {
    && Units(rows') == Units(rows)
    && (forall v | v in Units(rows) && v !in ran :: FinishedOf(rows', v) == FinishedOf(rows, v))
    && (forall v, s | v in Units(rows) && v in ran && s in Units(rows) :: FinishedOf(rows', v) > FinishedOf(rows, s))
  }

  /** No unit of the table belongs to a more urgent class than `u`. */
  ghost predicate InFront(rows: seq<UnitRow>, u: string)
    requires u in Units(rows)
  {
    forall r | r in rows :: Rank(RowOf(rows, u)) <= Rank(r)
  }

  /** The other units last run no later than `u`. */
  function Older(rows: seq<UnitRow>, u: string): set<string>
    requires u in Units(rows)
  {
    set v | v in Units(rows) && v != u && FinishedOf(rows, v) <= FinishedOf(rows, u)
  }

  function PickedUnits(rows: seq<UnitRow>, budget: real, default: real): set<string> {
    Units(Picks(rows, budget, default))
  }

  /** A slice that passes over a unit in front runs one that was last run no later than it. */
  lemma {:induction false} HeadIsOlder(rows: seq<UnitRow>, budget: real, default: real, u: string) returns (f: string)
    requires DistinctUnits(rows) && u in Units(rows) && InFront(rows, u)
    requires u !in PickedUnits(rows, budget, default)
    ensures f in Older(rows, u) && f in PickedUnits(rows, budget, default)
  {
    var mine := RowOf(rows, u);
    HeadIsPicked(rows, budget, default);
    OrderedHead(rows, default);
    var first := Ordered(rows, default)[0];
    assert first in Picks(rows, budget, default) && first in Ordered(rows, default);
    f := first.unit;
    assert f in Units(rows) && RowOf(rows, f) == first;
    assert !Earlier(mine, first, default);
  }

  lemma {:induction false} FewerOlder(rows: seq<UnitRow>, rows': seq<UnitRow>, ran: set<string>, u: string, f: string)
    requires u in Units(rows) && NextRound(rows, rows', ran)
    requires u !in ran && f in ran && f in Older(rows, u)
    ensures |Older(rows', u)| < |Older(rows, u)|
  {
    forall v | v in Older(rows', u) ensures v in Older(rows, u) - {f} {
    }
    SubsetSize(Older(rows', u), Older(rows, u) - {f});
  }

  lemma {:induction false} SubsetSize(a: set<string>, b: set<string>)
    requires a <= b
    ensures |a| <= |b|
  {
    if a != {} {
      var x :| x in a;
      SubsetSize(a - {x}, b - {x});
    }
  }

  /** A run of slices: the table before each, and the budget each had. */
  ghost predicate Rounds(tables: seq<seq<UnitRow>>, budgets: seq<real>, default: real, u: string) {
    && |tables| == |budgets|
    && (forall i | 0 <= i < |tables| :: Urgent(tables[i], u))
    && (forall i | 0 < i < |tables| :: FollowsOn(tables, budgets, default, i))
  }

  ghost predicate Urgent(rows: seq<UnitRow>, u: string) {
    DistinctUnits(rows) && u in Units(rows) && InFront(rows, u)
  }

  ghost predicate FollowsOn(tables: seq<seq<UnitRow>>, budgets: seq<real>, default: real, i: nat)
    requires 0 < i < |tables| == |budgets|
  {
    NextRound(tables[i - 1], tables[i], PickedUnits(tables[i - 1], budgets[i - 1], default))
  }

  /** What the planner is for: a unit that stays in the front class is run within as many slices as there
      are units last run no later than it, and one more, however long it takes and however small the
      budgets are. */
  lemma {:induction false} NoUnitStarves(tables: seq<seq<UnitRow>>, budgets: seq<real>, default: real, u: string)
    returns (i: nat)
    requires Rounds(tables, budgets, default, u) && tables != []
    requires |tables| > |Older(tables[0], u)|
    ensures i <= |Older(tables[0], u)| && i < |tables| && u in PickedUnits(tables[i], budgets[i], default)
  {
    i := RunFrom(tables, budgets, default, u, 0);
  }

  lemma {:induction false} RunFrom(tables: seq<seq<UnitRow>>, budgets: seq<real>, default: real, u: string, k: nat)
    returns (i: nat)
    requires Rounds(tables, budgets, default, u) && k < |tables|
    requires Urgent(tables[k], u) && |tables| - k > |Older(tables[k], u)|
    ensures k <= i <= k + |Older(tables[k], u)| && i < |tables|
    ensures u in PickedUnits(tables[i], budgets[i], default)
    decreases |tables| - k
  {
    i := k;
    if u !in PickedUnits(tables[k], budgets[k], default) {
      SomeOlder(tables[k], budgets[k], default, u);
      assert FollowsOn(tables, budgets, default, k + 1) && Urgent(tables[k + 1], u);
      PassedOver(tables[k], tables[k + 1], budgets[k], default, u);
      i := RunFrom(tables, budgets, default, u, k + 1);
    }
  }

  lemma {:induction false} SomeOlder(rows: seq<UnitRow>, budget: real, default: real, u: string)
    requires Urgent(rows, u) && u !in PickedUnits(rows, budget, default)
    ensures |Older(rows, u)| > 0
  {
    var f := HeadIsOlder(rows, budget, default, u);
  }

  lemma {:induction false} PassedOver(rows: seq<UnitRow>, rows': seq<UnitRow>, budget: real, default: real, u: string)
    requires Urgent(rows, u) && u !in PickedUnits(rows, budget, default)
    requires NextRound(rows, rows', PickedUnits(rows, budget, default))
    ensures u in Units(rows') && |Older(rows', u)| < |Older(rows, u)|
  {
    var f := HeadIsOlder(rows, budget, default, u);
    FewerOlder(rows, rows', PickedUnits(rows, budget, default), u, f);
  }
}
