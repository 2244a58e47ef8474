/** harness/whenceslow.py, the churn replay: what a per-round budget would have covered. */
module WhenceReplay {
  import opened Order
  import opened Seqs
  import opened Text

  /** Last measured seconds per unit, and the price of a unit never measured. */
  datatype Prices = Prices(costs: map<string, real>, default: real) {

    function Cost(u: string): real {
      if u in costs then costs[u] else default
    }

    /** The planner's order among uncovered units: `(cost, unit id)`. */
    predicate Cheaper(a: string, b: string) {
      Cost(a) < Cost(b) || (Cost(a) == Cost(b) && Less(a, b))
    }

    predicate NonNegative(units: set<string>) {
      forall u | u in units :: Cost(u) >= 0.0
    }

    lemma {:induction false} CheaperIsStrictTotal()
      ensures StrictTotal(Cheaper)
    {
      LessIsStrictTotal();
    }

    function Sum(us: seq<string>): real {
      if us == [] then 0.0 else Sum(us[..|us| - 1]) + Cost(us[|us| - 1])
    }

    ghost function Total(s: set<string>): real {
      if s == {} then 0.0 else
        var u :| u in s;
        Cost(u) + Total(s - {u})
    }

    lemma {:induction false} TotalMinus(s: set<string>, x: string)
      requires x in s
      ensures Total(s) == Cost(x) + Total(s - {x})
    {
      var u :| u in s && Total(s) == Cost(u) + Total(s - {u});
      if u != x {
        TotalMinus(s - {u}, x);
        TotalMinus(s - {x}, u);
        assert s - {u} - {x} == s - {x} - {u};
      }
    }

    lemma {:induction false} TotalMonotone(a: set<string>, b: set<string>)
      requires a <= b && NonNegative(b)
      ensures 0.0 <= Total(a) <= Total(b)
      decreases b
    {
      if b != {} {
        var x :| x in b;
        TotalMinus(b, x);
        if x in a {
          TotalMinus(a, x);
          TotalMonotone(a - {x}, b - {x});
        } else {
          TotalMonotone(a, b - {x});
        }
      }
    }

    /** The units of `todo` that the planner's order puts before `u`. */
    function Before(todo: set<string>, u: string): set<string> {
      set v | v in todo && Cheaper(v, u)
    }

    /** What one slice covers, said without a loop: the cheapest unit always; and, when there is a
        budget at all, every unit that nothing billable precedes or that fits together with
        everything cheaper than it. */
    ghost predicate Affordable(todo: set<string>, u: string, budget: real) {
      u in todo &&
      (|| Before(todo, u) == {}
       || (budget > 0.0 && (Total(Before(todo, u)) == 0.0
                            || Total(Before(todo, u)) + Cost(u) <= budget)))
    }

    ghost function Slice(todo: set<string>, budget: real): set<string> {
      set u | u in todo && Affordable(todo, u, budget)
    }
  }

  /** In the planner's order, what precedes the i-th unit is exactly the first i units. */
  lemma {:induction false} BeforeIsPrefix(p: Prices, todo: set<string>, ks: seq<string>, i: nat)
    requires Ascending(ks, p.Cheaper) && Elems(ks) == todo && i < |ks|
    ensures p.Before(todo, ks[i]) == Elems(ks[..i])
  {
    p.CheaperIsStrictTotal();
    forall v | v in p.Before(todo, ks[i]) ensures v in ks[..i] {
      var j :| 0 <= j < |ks| && ks[j] == v;
      InOrder(ks, p.Cheaper, i, j);
      assert ks[..i][j] == v;
    }
    forall v | v in ks[..i] ensures v in p.Before(todo, ks[i]) {
      var j :| 0 <= j < i && ks[j] == v;
      InOrder(ks, p.Cheaper, j, i);
      assert ks[j] in todo;
    }
  }

  lemma {:induction false} PrefixStep(p: Prices, ks: seq<string>, i: nat)
    requires i < |ks|
    ensures p.Sum(ks[..i + 1]) == p.Sum(ks[..i]) + p.Cost(ks[i])
    ensures Elems(ks[..i + 1]) == Elems(ks[..i]) + {ks[i]}
  {
    assert ks[..i + 1] == ks[..i] + [ks[i]];
  }

  lemma {:induction false} SumIsTotal(p: Prices, ks: seq<string>)
    requires Distinct(ks)
    ensures p.Sum(ks) == p.Total(Elems(ks))
  {
    if ks == [] {
      assert Elems(ks) == {};
    } else {
      var n := |ks| - 1;
      SumIsTotal(p, ks[..n]);
      PrefixStep(p, ks, n);
      assert ks[..n + 1] == ks;
      p.TotalMinus(Elems(ks), ks[n]);
      assert Elems(ks) - {ks[n]} == Elems(ks[..n]);
    }
  }

  lemma {:induction false} SumMonotone(p: Prices, ks: seq<string>, i: nat, j: nat)
    requires i <= j <= |ks| && forall u | u in ks :: p.Cost(u) >= 0.0
    ensures 0.0 <= p.Sum(ks[..i]) <= p.Sum(ks[..j])
    decreases j
  {
    if i < j {
      SumMonotone(p, ks, i, j - 1);
      PrefixStep(p, ks, j - 1);
    } else if j > 0 {
      SumMonotone(p, ks, i - 1, j - 1);
      PrefixStep(p, ks, j - 1);
    }
  }

  lemma {:induction false} AscendingIsDistinct(p: Prices, ks: seq<string>)
    requires Ascending(ks, p.Cheaper)
    ensures Distinct(ks)
  {
    p.CheaperIsStrictTotal();
    forall i, j | 0 <= i < j < |ks| ensures ks[i] != ks[j] {
      InOrder(ks, p.Cheaper, i, j);
    }
  }

  /** In the planner's order, what precedes the i-th unit costs what the first i units cost. */
  lemma {:induction false} BeforeCosts(p: Prices, ks: seq<string>, i: nat)
    requires Ascending(ks, p.Cheaper) && i < |ks|
    ensures p.Total(p.Before(Elems(ks), ks[i])) == p.Sum(ks[..i])
    ensures p.Before(Elems(ks), ks[i]) == {} <==> i == 0
  {
    AscendingIsDistinct(p, ks);
    BeforeIsPrefix(p, Elems(ks), ks, i);
    SumIsTotal(p, ks[..i]);
    if i > 0 { assert ks[..i][0] in Elems(ks[..i]); } else { assert Elems(ks[..i]) == {}; }
  }

  /** What is known once the pass has taken exactly the first `k` units. */
  ghost predicate Settled(p: Prices, ks: seq<string>, k: nat, budget: real) {
    && k <= |ks| && (k == 0 ==> ks == [])
    && (k > 1 ==> budget > 0.0 && (p.Sum(ks[..k]) <= budget || p.Sum(ks[..k - 1]) == 0.0))
    && (k < |ks| ==> budget <= 0.0 || (p.Sum(ks[..k]) != 0.0 && p.Sum(ks[..k]) + p.Cost(ks[k]) > budget))
  }

  lemma {:induction false} TakenIsAffordable(p: Prices, ks: seq<string>, k: nat, i: nat, budget: real)
    requires Ascending(ks, p.Cheaper) && p.NonNegative(Elems(ks))
    requires Settled(p, ks, k, budget) && i < k
    ensures p.Affordable(Elems(ks), ks[i], budget)
  {
    BeforeCosts(p, ks, i);
    assert forall u | u in ks :: u in Elems(ks);
    PrefixStep(p, ks, i);
    SumMonotone(p, ks, i + 1, k);
    SumMonotone(p, ks, i, k - 1);
  }

  lemma {:induction false} RefusedIsNotAffordable(p: Prices, ks: seq<string>, k: nat, i: nat, budget: real)
    requires Ascending(ks, p.Cheaper) && p.NonNegative(Elems(ks))
    requires Settled(p, ks, k, budget) && k <= i < |ks|
    ensures !p.Affordable(Elems(ks), ks[i], budget)
  {
    BeforeCosts(p, ks, i);
    assert forall u | u in ks :: u in Elems(ks);
    PrefixStep(p, ks, i);
    PrefixStep(p, ks, k);
    SumMonotone(p, ks, k, i);
    SumMonotone(p, ks, k + 1, i + 1);
    SumMonotone(p, ks, 0, k);
  }

  /** The units before the stopping point are the affordable ones, and no others are. */
  lemma {:induction false} SettledIsSlice(p: Prices, ks: seq<string>, k: nat, budget: real)
    requires Ascending(ks, p.Cheaper) && p.NonNegative(Elems(ks)) && Settled(p, ks, k, budget)
    ensures Elems(ks[..k]) == p.Slice(Elems(ks), budget)
    ensures p.Sum(ks[..k]) == p.Total(p.Slice(Elems(ks), budget))
  {
    forall i | 0 <= i < |ks| ensures p.Affordable(Elems(ks), ks[i], budget) <==> i < k {
      if i < k { TakenIsAffordable(p, ks, k, i, budget); } else { RefusedIsNotAffordable(p, ks, k, i, budget); }
    }
    forall u | u in Elems(ks) ensures u in ks[..k] <==> p.Affordable(Elems(ks), u, budget) {
      var i :| 0 <= i < |ks| && ks[i] == u;
      if i < k { assert ks[..k][i] == u; }
    }
    AscendingIsDistinct(p, ks);
    SumIsTotal(p, ks[..k]);
  }

  /** What a round accumulates: the covered set and the seconds spent. */
  datatype Slate = Slate(covered: set<string>, spent: real)

  /** The planner's pass over the sorted queue. */
  function Walk(p: Prices, ks: seq<string>, s: Slate, budget: real): Slate {
    if ks == [] then s
    else if s.spent != 0.0 && s.spent + p.Cost(ks[0]) > budget then Walk(p, ks[1..], s, budget)
    else
      var s' := Slate(s.covered + {ks[0]}, s.spent + p.Cost(ks[0]));
      if s'.spent >= budget then s' else Walk(p, ks[1..], s', budget)
  }

  /** Once one unit is refused, the costlier ones after it are refused too. */
  lemma {:induction false} WalkRefuses(p: Prices, ks: seq<string>, i: nat, s: Slate, budget: real)
    requires i <= |ks| && s.spent != 0.0
    requires forall j | i <= j < |ks| :: s.spent + p.Cost(ks[j]) > budget
    ensures Walk(p, ks[i..], s, budget) == s
    decreases |ks| - i
  {
    if i < |ks| {
      WalkRefuses(p, ks, i + 1, s, budget);
      assert ks[i..][1..] == ks[i + 1..];
    }
  }

  /** The slate after taking the first `i` units. */
  function Taken(p: Prices, covered: set<string>, ks: seq<string>, i: nat): Slate
    requires i <= |ks|
  {
    Slate(covered + Elems(ks[..i]), p.Sum(ks[..i]))
  }

  lemma {:induction false} WalkTakes(p: Prices, covered: set<string>, ks: seq<string>, i: nat, budget: real)
    requires i < |ks|
    requires p.Sum(ks[..i]) == 0.0 || p.Sum(ks[..i]) + p.Cost(ks[i]) <= budget
    ensures Walk(p, ks[i..], Taken(p, covered, ks, i), budget)
         == if p.Sum(ks[..i + 1]) >= budget then Taken(p, covered, ks, i + 1)
            else Walk(p, ks[i + 1..], Taken(p, covered, ks, i + 1), budget)
  {
    PrefixStep(p, ks, i);
    assert covered + Elems(ks[..i]) + {ks[i]} == covered + Elems(ks[..i + 1]);
    assert ks[i..][1..] == ks[i + 1..];
  }

  lemma {:induction false} WalkSettles(p: Prices, covered: set<string>, ks: seq<string>, i: nat, budget: real)
    returns (k: nat)
    requires Ascending(ks, p.Cheaper) && (forall u | u in ks :: p.Cost(u) >= 0.0) && i <= |ks|
    requires i > 0 ==> p.Sum(ks[..i]) < budget
    ensures Settled(p, ks, k, budget)
    ensures Walk(p, ks[i..], Taken(p, covered, ks, i), budget) == Taken(p, covered, ks, k)
    decreases |ks| - i
  {
    k := i;
    SumMonotone(p, ks, 0, i);
    if i == |ks| {
    } else if p.Sum(ks[..i]) != 0.0 && p.Sum(ks[..i]) + p.Cost(ks[i]) > budget {
      RestIsRefused(p, ks, i, Taken(p, covered, ks, i), budget);
    } else {
      WalkTakes(p, covered, ks, i, budget);
      if p.Sum(ks[..i + 1]) >= budget {
        k := i + 1;
        BoughtIsSettled(p, ks, i, budget);
      } else {
        k := WalkSettles(p, covered, ks, i + 1, budget);
      }
    }
  }

  lemma {:induction false} BoughtIsSettled(p: Prices, ks: seq<string>, i: nat, budget: real)
    requires Ascending(ks, p.Cheaper) && (forall u | u in ks :: p.Cost(u) >= 0.0) && i < |ks|
    requires i > 0 ==> p.Sum(ks[..i]) < budget
    requires p.Sum(ks[..i]) == 0.0 || p.Sum(ks[..i]) + p.Cost(ks[i]) <= budget
    requires p.Sum(ks[..i + 1]) >= budget
    ensures Settled(p, ks, i + 1, budget)
  {
    SumMonotone(p, ks, 0, i);
    PrefixStep(p, ks, i);
    BilledUnitsCost(p, ks, i + 1);
  }

  lemma {:induction false} RestIsRefused(p: Prices, ks: seq<string>, i: nat, s: Slate, budget: real)
    requires Ascending(ks, p.Cheaper) && i < |ks|
    requires s.spent != 0.0 && s.spent + p.Cost(ks[i]) > budget
    ensures Walk(p, ks[i..], s, budget) == s
  {
    forall j | i <= j < |ks| ensures s.spent + p.Cost(ks[j]) > budget {
      InOrder(ks, p.Cheaper, i, j);
    }
    WalkRefuses(p, ks, i, s, budget);
  }

  /** If the first `k` units cost anything, the next one does. */
  lemma {:induction false} BilledUnitsCost(p: Prices, ks: seq<string>, k: nat)
    requires Ascending(ks, p.Cheaper) && (forall u | u in ks :: p.Cost(u) >= 0.0)
    ensures k < |ks| && p.Sum(ks[..k]) > 0.0 ==> p.Cost(ks[k]) > 0.0
  {
    if 0 < k < |ks| {
      InOrder(ks, p.Cheaper, k - 1, k);
      PrefixStep(p, ks, k - 1);
      BilledUnitsCost(p, ks, k - 1);
    }
  }

  /** The uncovered units in the planner's order. */
  function Queue(p: Prices, todo: set<string>): (ks: seq<string>)
    ensures Ascending(ks, p.Cheaper) && Elems(ks) == todo
  {
    p.CheaperIsStrictTotal();
    SortedBy(todo, p.Cheaper)
  }

  /** One round's slice: what is covered after it, and what it cost. */
  function Round(p: Prices, units: set<string>, covered: set<string>, budget: real): Slate {
    Walk(p, Queue(p, units - covered), Slate(covered, 0.0), budget)
  }

  lemma {:induction false} RoundSettles(p: Prices, units: set<string>, covered: set<string>,
      budget: real) returns (k: nat)
    requires p.NonNegative(units - covered)
    ensures var ks := Queue(p, units - covered);
            && Settled(p, ks, k, budget)
            && Round(p, units, covered, budget) == Taken(p, covered, ks, k)
  {
    var ks := Queue(p, units - covered);
    assert ks[0..] == ks && Taken(p, covered, ks, 0) == Slate(covered, 0.0);
    k := WalkSettles(p, covered, ks, 0, budget);
  }

  lemma {:induction false} RoundIsSlice(p: Prices, units: set<string>, covered: set<string>, budget: real)
    requires p.NonNegative(units - covered)
    ensures Round(p, units, covered, budget).covered == covered + p.Slice(units - covered, budget)
    ensures Round(p, units, covered, budget).spent == p.Total(p.Slice(units - covered, budget))
  {
    var k := RoundSettles(p, units, covered, budget);
    SettledIsSlice(p, Queue(p, units - covered), k, budget);
  }

  lemma {:induction false} WalkUnfolds(p: Prices, ks: seq<string>, i: nat, s: Slate, budget: real)
    requires i < |ks|
    ensures var u := ks[i];
            var taken := Slate(s.covered + {u}, s.spent + p.Cost(u));
            Walk(p, ks[i..], s, budget)
            == if s.spent != 0.0 && s.spent + p.Cost(u) > budget then Walk(p, ks[i + 1..], s, budget)
               else if taken.spent >= budget then taken
               else Walk(p, ks[i + 1..], taken, budget)
  {
    assert ks[i..][0] == ks[i] && ks[i..][1..] == ks[i + 1..];
  }

  /** The loop the driver runs once a round. */
  method RunRound(p: Prices, units: set<string>, covered: set<string>, budget: real)
    returns (now: set<string>, spent: real)
    ensures Slate(now, spent) == Round(p, units, covered, budget)
  {
    now, spent := WalkQueue(p, Queue(p, units - covered), covered, budget);
  }

  method WalkQueue(p: Prices, ks: seq<string>, covered: set<string>, budget: real)
    returns (now: set<string>, spent: real)
    ensures Slate(now, spent) == Walk(p, ks, Slate(covered, 0.0), budget)
  {
    now, spent := covered, 0.0;
    var i := 0;
    assert ks[0..] == ks;
    while i < |ks|
      invariant 0 <= i <= |ks|
      invariant Walk(p, ks[i..], Slate(now, spent), budget) == Walk(p, ks, Slate(covered, 0.0), budget)
    {
      var u := ks[i];
      WalkUnfolds(p, ks, i, Slate(now, spent), budget);
      i := i + 1;
      var est := p.Cost(u);
      if spent != 0.0 && spent + est > budget {
        continue;
      }
      now := now + {u};
      spent := spent + est;
      if spent >= budget {
        break;
      }
    }
  }

  // ------------------------------------------------------------------ one round

  /** The whole spend is `u`'s cost: everything before it is free. */
  ghost predicate OnlyBillable(p: Prices, todo: set<string>, u: string, spent: real) {
    spent == p.Cost(u) && p.Total(p.Before(todo, u)) == 0.0
  }

  /** A slice never stays inside its budget by luck: either it does, or it bought one billable unit
      and nothing else that costs anything. */
  lemma {:induction false} SpendBound(p: Prices, units: set<string>, covered: set<string>, budget: real)
    requires p.NonNegative(units - covered)
    ensures var s := p.Slice(units - covered, budget);
            var spent := Round(p, units, covered, budget).spent;
            spent == p.Total(s) &&
            (|| s == {}
             || spent <= budget
             || exists u :: u in s && OnlyBillable(p, units - covered, u, spent))
  {
    var k := RoundSettles(p, units, covered, budget);
    SettledIsSlice(p, Queue(p, units - covered), k, budget);
    SettledSpend(p, Queue(p, units - covered), k, budget);
  }

  lemma {:induction false} SettledSpend(p: Prices, ks: seq<string>, k: nat, budget: real)
    requires Ascending(ks, p.Cheaper) && p.NonNegative(Elems(ks)) && Settled(p, ks, k, budget)
    ensures || Elems(ks[..k]) == {}
            || p.Sum(ks[..k]) <= budget
            || exists u :: u in Elems(ks[..k]) && OnlyBillable(p, Elems(ks), u, p.Sum(ks[..k]))
  {
    if k > 0 {
      var u := ks[k - 1];
      PrefixStep(p, ks, k - 1);
      BeforeCosts(p, ks, k - 1);
      assert ks[..k][k - 1] == u && u in Elems(ks[..k]);
      if p.Sum(ks[..k - 1]) == 0.0 {
        assert OnlyBillable(p, Elems(ks), u, p.Sum(ks[..k]));
      }
    } else {
      assert Elems(ks[..k]) == {};
    }
  }

  lemma {:induction false} FirstInLine(p: Prices, todo: set<string>) returns (m: string)
    requires todo != {}
    ensures m in todo && p.Before(todo, m) == {}
    ensures forall u | u in todo :: u == m || p.Cheaper(m, u)
  {
    p.CheaperIsStrictTotal();
    m := Least(todo, p.Cheaper);
  }

  lemma {:induction false} SomethingIsTaken(p: Prices, todo: set<string>, budget: real)
    requires todo != {}
    ensures p.Slice(todo, budget) != {}
  {
    var m := FirstInLine(p, todo);
    assert m in p.Slice(todo, budget);
  }

  ghost predicate AllBillable(p: Prices, units: set<string>) {
    forall u | u in units :: p.Cost(u) > 0.0
  }

  /** A free unit waits, and so do billable ones, each dearer than the (positive) budget: the free units
      leave nothing spent, and the unit after them is bought whatever it costs. */
  ghost predicate FreeThenDear(p: Prices, todo: set<string>, budget: real, cheapest: string) {
    && budget > 0.0 && p.Cost(cheapest) == 0.0
    && (exists u :: u in todo && p.Cost(u) > 0.0)
    && (forall u | u in todo && p.Cost(u) > 0.0 :: p.Cost(u) > budget)
  }

  /** The documented bound on a round's spend, the larger of the budget and the cheapest uncovered cost,
      holds exactly unless free units wait together with billable ones that all exceed the budget. */
  lemma {:induction false} WhenSpendIsBounded(p: Prices, units: set<string>, covered: set<string>, budget: real,
      cheapest: string)
    requires p.NonNegative(units - covered) && cheapest in units - covered
    requires forall u | u in units - covered :: p.Cost(cheapest) <= p.Cost(u)
    ensures var spent := Round(p, units, covered, budget).spent;
            spent <= budget || spent <= p.Cost(cheapest) <==> !FreeThenDear(p, units - covered, budget, cheapest)
  {
    var todo := units - covered;
    var spent := Round(p, units, covered, budget).spent;
    if FreeThenDear(p, todo, budget, cheapest) {
      DearUnitIsBought(p, todo, budget);
      RoundIsSlice(p, units, covered, budget);
    } else if spent > budget && spent > p.Cost(cheapest) {
      OverspendIsFreeThenDear(p, units, covered, budget, cheapest);
    }
  }

  lemma {:induction false} OverspendIsFreeThenDear(p: Prices, units: set<string>, covered: set<string>, budget: real,
      cheapest: string)
    requires p.NonNegative(units - covered) && cheapest in units - covered
    requires forall u | u in units - covered :: p.Cost(cheapest) <= p.Cost(u)
    requires Round(p, units, covered, budget).spent > budget
    requires Round(p, units, covered, budget).spent > p.Cost(cheapest)
    ensures FreeThenDear(p, units - covered, budget, cheapest)
  {
    var todo := units - covered;
    SpendBound(p, units, covered, budget);
    SomethingIsTaken(p, todo, budget);
    var u :| u in p.Slice(todo, budget) && OnlyBillable(p, todo, u, Round(p, units, covered, budget).spent);
    forall v | v in p.Before(todo, u) ensures p.Cost(v) == 0.0 {
      p.TotalMinus(p.Before(todo, u), v);
      p.TotalMonotone(p.Before(todo, u) - {v}, todo);
    }
    assert cheapest in p.Before(todo, u);
    assert p.Affordable(todo, u, budget);
  }

  lemma {:induction false} FreeTotal(p: Prices, s: set<string>)
    requires forall u | u in s :: p.Cost(u) == 0.0
    ensures p.Total(s) == 0.0
  {
    if s != {} {
      var x :| x in s;
      p.TotalMinus(s, x);
      FreeTotal(p, s - {x});
    }
  }

  lemma {:induction false} DearUnitIsBought(p: Prices, todo: set<string>, budget: real)
    requires p.NonNegative(todo) && budget > 0.0 && exists u :: u in todo && p.Cost(u) > 0.0
    requires forall u | u in todo && p.Cost(u) > 0.0 :: p.Cost(u) > budget
    ensures p.Total(p.Slice(todo, budget)) > budget
  {
    var billable := set u | u in todo && p.Cost(u) > 0.0;
    var w :| w in todo && p.Cost(w) > 0.0;
    assert w in billable;
    var b := FirstInLine(p, billable);
    forall v | v in p.Before(todo, b) ensures p.Cost(v) == 0.0 {
      assert v in billable ==> v in p.Before(billable, b);
    }
    FreeTotal(p, p.Before(todo, b));
    var s := p.Slice(todo, budget);
    assert b in s;
    p.TotalMinus(s, b);
    p.TotalMonotone(s - {b}, todo);
  }

  /** With no free unit left to cover, the bound holds. */
  lemma {:induction false} SpendBoundBillable(p: Prices, units: set<string>, covered: set<string>, budget: real,
      cheapest: string)
    requires AllBillable(p, units - covered) && cheapest in units - covered
    requires forall u | u in units - covered :: p.Cost(cheapest) <= p.Cost(u)
    ensures Round(p, units, covered, budget).spent <= budget
         || Round(p, units, covered, budget).spent <= p.Cost(cheapest)
  {
    WhenSpendIsBounded(p, units, covered, budget, cheapest);
  }

  /** A unit whose last run rounded to 0.0 s breaks that bound: it is taken, and then so is the next
      unit, whatever it costs. */
  lemma {:induction false} FreeUnitBreaksTheBudget(p: Prices, a: string, b: string, budget: real)
    requires p.Cost(a) == 0.0 < budget < p.Cost(b)
    ensures Round(p, {a, b}, {}, budget).spent == p.Cost(b) > budget
  {
    var s := {a, b};
    assert p.Total({a}) == 0.0 by {
      p.TotalMinus({a}, a);
      assert {a} - {a} == {};
    }
    assert p.Total(s) == p.Cost(b) by {
      p.TotalMinus(s, b);
      assert s - {b} == {a};
    }
    assert p.Before(s, b) == {a} by { LessTrichotomy(b, b); }
    assert p.Before(s, a) == {} by { LessTrichotomy(a, a); }
    assert p.Affordable(s, a, budget) && p.Affordable(s, b, budget);
    assert p.Slice(s, budget) == s;
    assert s - {} == s;
    RoundIsSlice(p, s, {}, budget);
  }

  /** With measured seconds, whatever an unmeasured unit would cost: a recorded 0.0 is a free unit, and lets in
      one whose last run took longer than the budget. */
  lemma {:induction false} ZeroSecondsOverspend(a: string, b: string, seconds: real, default: real, budget: real)
    requires a != b && 0.0 < budget < seconds
    ensures Round(Prices(map[a := 0.0, b := seconds], default), {a, b}, {}, budget).spent == seconds > budget
  {
    FreeUnitBreaksTheBudget(Prices(map[a := 0.0, b := seconds], default), a, b, budget);
  }

  /** And a unit that was never run is priced at the default. */
  lemma {:induction false} UnmeasuredCostDefault(a: string, default: real, budget: real)
    requires default >= 0.0
    ensures Round(Prices(map[], default), {a}, {}, budget).spent == default
  {
    var p := Prices(map[], default);
    assert {a} - {} == {a};
    RoundIsSlice(p, {a}, {}, budget);
    SomethingIsTaken(p, {a}, budget);
    assert p.Slice({a}, budget) == {a};
    p.TotalMinus({a}, a);
    assert {a} - {a} == {};
  }

  ghost predicate DownClosed(p: Prices, d: set<string>, todo: set<string>) {
    d <= todo && forall u, v :: u in d && v in todo && p.Cheaper(v, u) ==> v in d
  }

  lemma {:induction false} SliceIsDownClosed(p: Prices, todo: set<string>, budget: real)
    requires p.NonNegative(todo)
    ensures DownClosed(p, p.Slice(todo, budget), todo)
  {
    forall u, v | u in p.Slice(todo, budget) && v in todo && p.Cheaper(v, u)
      ensures v in p.Slice(todo, budget)
    {
      forall x | x in p.Before(todo, v) ensures x in p.Before(todo, u) - {v} {
        p.CheaperIsStrictTotal();
      }
      assert v in p.Before(todo, u);
      p.TotalMinus(p.Before(todo, u), v);
      p.TotalMonotone(p.Before(todo, v), p.Before(todo, u) - {v});
      p.TotalMonotone({}, {u});
      p.TotalMinus({u}, u);
    }
  }

  /** Among sets of at least its size, a down-closed set is the cheapest. */
  lemma {:induction false} DownClosedIsCheapest(p: Prices, todo: set<string>, d: set<string>, t: set<string>)
    requires p.NonNegative(todo) && DownClosed(p, d, todo) && t <= todo && |d| <= |t|
    ensures p.Total(d) <= p.Total(t)
    decreases d - t
  {
    if d <= t {
      p.TotalMonotone(d, t);
    } else {
      var x :| x in d && x !in t;
      assert !(t <= d) by {
        if t <= d { CardStrict(t, d, x); }
      }
      var y :| y in t && y !in d;
      var t' := t - {y} + {x};
      p.CheaperIsStrictTotal();
      assert p.Cheaper(x, y);  // otherwise y would be below x, and so in d
      assert t' - {x} == t - {y};
      p.TotalMinus(t, y);
      p.TotalMinus(t', x);
      DownClosedIsCheapest(p, todo, d, t');
    }
  }

  lemma {:induction false} CardStrict(t: set<string>, d: set<string>, x: string)
    requires t <= d && x in d && x !in t
    ensures |t| < |d|
  {
    assert t <= d - {x};
    CardMonotone(t, d - {x});
  }

  lemma {:induction false} CardMonotone(a: set<string>, b: set<string>)
    requires a <= b
    ensures |a| <= |b|
  {
    if a != {} {
      var x :| x in a;
      CardMonotone(a - {x}, b - {x});
    }
  }

  /** A choice of units the budget pays for. */
  ghost predicate Fits(p: Prices, todo: set<string>, budget: real, t: set<string>) {
    t <= todo && p.Total(t) <= budget
  }

  function Free(p: Prices, todo: set<string>): set<string> {
    set u | u in todo && p.Cost(u) == 0.0
  }

  /** No choice of uncovered units that fits the budget covers more of them than the round does, unless the
      budget is exactly zero and two free units wait: then the round stops after the first of them. */
  lemma {:induction false} GreedyIsOptimal(p: Prices, todo: set<string>, budget: real)
    requires p.NonNegative(todo)
    ensures (forall t :: Fits(p, todo, budget, t) ==> |t| <= |p.Slice(todo, budget)|)
       <==> budget != 0.0 || |Free(p, todo)| < 2
  {
    if budget != 0.0 || |Free(p, todo)| < 2 {
      forall t | Fits(p, todo, budget, t) ensures |t| <= |p.Slice(todo, budget)| {
        NothingFitsMore(p, todo, budget, t);
      }
    } else {
      FreeTotal(p, Free(p, todo));
      assert Fits(p, todo, 0.0, Free(p, todo));
      OneUnitAtZero(p, todo);
    }
  }

  lemma {:induction false} NothingFitsMore(p: Prices, todo: set<string>, budget: real, t: set<string>)
    requires p.NonNegative(todo) && Fits(p, todo, budget, t)
    requires budget != 0.0 || |Free(p, todo)| < 2
    ensures |t| <= |p.Slice(todo, budget)|
  {
    p.TotalMonotone({}, t);
    if budget > 0.0 {
      GreedyWithBudget(p, todo, budget, t);
    } else {
      forall u | u in t ensures u in Free(p, todo) {
        p.TotalMinus(t, u);
        p.TotalMonotone(t - {u}, t);
      }
      CardMonotone(t, Free(p, todo));
      if t != {} {
        SomethingIsTaken(p, todo, budget);
        assert |p.Slice(todo, budget)| > 0;
      }
    }
  }

  lemma {:induction false} GreedyWithBudget(p: Prices, todo: set<string>, budget: real, t: set<string>)
    requires p.NonNegative(todo) && budget > 0.0 && Fits(p, todo, budget, t)
    ensures |t| <= |p.Slice(todo, budget)|
  {
    var g := p.Slice(todo, budget);
    if |g| < |t| {
      assert !(todo <= g) by {
        if todo <= g { CardMonotone(t, g); }
      }
      var y := FirstRefused(p, todo, budget);
      DownClosedIsCheapest(p, todo, g + {y}, t);
    }
  }

  /** Without a budget a round takes the first unit in line, and stops. */
  lemma {:induction false} OneUnitAtZero(p: Prices, todo: set<string>)
    ensures |p.Slice(todo, 0.0)| <= 1
  {
    if todo == {} {
      assert p.Slice(todo, 0.0) == {};
    } else {
      var m := FirstInLine(p, todo);
      forall u | u in p.Slice(todo, 0.0) ensures u == m {
        assert p.Affordable(todo, u, 0.0);
        assert u != m ==> m in p.Before(todo, u);
      }
      CardMonotone(p.Slice(todo, 0.0), {m});
    }
  }

  lemma {:induction false} FirstRefused(p: Prices, todo: set<string>, budget: real) returns (y: string)
    requires p.NonNegative(todo) && !(todo <= p.Slice(todo, budget))
    ensures var g := p.Slice(todo, budget);
            && y in todo - g && g != {} && DownClosed(p, g + {y}, todo)
            && p.Total(g + {y}) == p.Total(g) + p.Cost(y)
            && (budget <= 0.0 || p.Total(g) + p.Cost(y) > budget)
  {
    var g := p.Slice(todo, budget);
    var z :| z in todo && z !in g;
    assert z in todo - g;
    y := FirstInLine(p, todo - g);
    SliceIsDownClosed(p, todo, budget);
    BeforeFirstRefused(p, todo, g, y);
    assert g + {y} - {y} == g;
    p.TotalMinus(g + {y}, y);
  }

  lemma {:induction false} BeforeFirstRefused(p: Prices, todo: set<string>, g: set<string>, y: string)
    requires g <= todo && DownClosed(p, g, todo) && y in todo - g
    requires forall u | u in todo - g :: u == y || p.Cheaper(y, u)
    ensures p.Before(todo, y) == g && DownClosed(p, g + {y}, todo)
  {
    p.CheaperIsStrictTotal();
    forall v | v in todo ensures v in p.Before(todo, y) <==> v in g {
      if v in g {
        assert !p.Cheaper(y, v);
      } else {
        assert v in todo - g;
      }
    }
  }

  // ------------------------------------------------------------------ whole runs

  /** With less to do before it and more to spend, a unit that fitted still fits. */
  lemma {:induction false} StillAffordable(p: Prices, more: set<string>, less: set<string>, b1: real, b2: real,
      u: string)
    requires p.NonNegative(more) && less <= more && b1 <= b2 && u in less && u in p.Slice(more, b1)
    ensures u in p.Slice(less, b2)
  {
    assert p.Before(less, u) <= p.Before(more, u);
    p.TotalMonotone(p.Before(less, u), p.Before(more, u));
  }

  /** The step that keeps the covered sets nested. */
  lemma {:induction false} RoundMonotone(p: Prices, units: set<string>, c1: set<string>, c2: set<string>, b1: real,
      b2: real)
    requires p.NonNegative(units) && c1 <= c2 && b1 <= b2
    ensures Round(p, units, c1, b1).covered <= Round(p, units, c2, b2).covered
  {
    RoundIsSlice(p, units, c1, b1);
    RoundIsSlice(p, units, c2, b2);
    forall u | u in p.Slice(units - c1, b1) && u !in c2 ensures u in p.Slice(units - c2, b2) {
      StillAffordable(p, units - c1, units - c2, b1, b2, u);
    }
  }

  /** What is covered after each round: invalidate, then spend the budget. */
  function CoveredAfter(p: Prices, units: set<string>, invalidations: seq<set<string>>, budget: real): set<string> {
    if invalidations == [] then {}
    else
      var n := |invalidations| - 1;
      Round(p, units, CoveredAfter(p, units, invalidations[..n], budget) - invalidations[n], budget).covered
  }

  /** A larger budget never covers less, after any round, under any sequence of invalidations. */
  lemma {:induction false} BudgetMonotone(p: Prices, units: set<string>, invalidations: seq<set<string>>, b1: real,
      b2: real)
    requires p.NonNegative(units) && b1 <= b2
    ensures CoveredAfter(p, units, invalidations, b1) <= CoveredAfter(p, units, invalidations, b2)
  {
    if invalidations != [] {
      var n := |invalidations| - 1;
      BudgetMonotone(p, units, invalidations[..n], b1, b2);
      RoundMonotone(p, units,
                    CoveredAfter(p, units, invalidations[..n], b1) - invalidations[n],
                    CoveredAfter(p, units, invalidations[..n], b2) - invalidations[n], b1, b2);
    }
  }

  /** `len(covered) / len(units)`, with 0.0 for an empty tier. */
  function Recall(units: set<string>, covered: set<string>): real {
    if |units| == 0 then 0.0 else |covered| as real / |units| as real
  }

  /** Recall is the share of the units that is covered. */
  lemma {:induction false} RecallIsShare(units: set<string>, covered: set<string>)
    ensures |units| > 0 ==> Recall(units, covered) * |units| as real == |covered| as real
    ensures |units| == 0 ==> Recall(units, covered) == 0.0
  {
  }

  /** Recall after each round. */
  function Series(p: Prices, units: set<string>, invalidations: seq<set<string>>, budget: real): (r: seq<real>)
    ensures |r| == |invalidations|
  {
    AfterEach(invalidations, (soFar: seq<set<string>>) => Recall(units, CoveredAfter(p, units, soFar, budget)))
  }

  /** What `f` makes of the rounds so far, after each round. */
  function AfterEach<R, T>(rounds: seq<R>, f: seq<R> -> T): (r: seq<T>)
    ensures |r| == |rounds|
  {
    if rounds == [] then [] else AfterEach(rounds[..|rounds| - 1], f) + [f(rounds)]
  }

  lemma {:induction false} AfterEachAt<R, T>(rounds: seq<R>, f: seq<R> -> T, i: nat)
    requires i < |rounds|
    ensures AfterEach(rounds, f)[i] == f(rounds[..i + 1])
  {
    if i < |rounds| - 1 {
      AfterEachAt(rounds[..|rounds| - 1], f, i);
      assert rounds[..|rounds| - 1][..i + 1] == rounds[..i + 1];
    } else {
      assert rounds[..i + 1] == rounds;
    }
  }

  /** Seconds spent in each round. */
  function Spends(p: Prices, units: set<string>, invalidations: seq<set<string>>, budget: real): (r: seq<real>)
    ensures |r| == |invalidations|
  {
    if invalidations == [] then []
    else
      var n := |invalidations| - 1;
      Spends(p, units, invalidations[..n], budget)
      + [Round(p, units, CoveredAfter(p, units, invalidations[..n], budget) - invalidations[n], budget).spent]
  }

  /** The replay: one invalidation and one slice per round. `units` defaults to the priced units. */
  method Replay(p: Prices, units: Option<seq<string>>, invalidations: seq<set<string>>, budget: real)
    returns (series: seq<real>, spent: seq<real>)
    requires units.Some? ==> Distinct(units.value)
    ensures var us := if units.None? then p.costs.Keys else Elems(units.value);
            && series == Series(p, us, invalidations, budget)
            && spent == Spends(p, us, invalidations, budget)
  {
    var us := if units.None? then p.costs.Keys else Elems(units.value);
    series, spent := ReplayOver(p, us, invalidations, budget);
  }

  /** What one more round adds. */
  lemma {:induction false} ReplayStep(p: Prices, us: set<string>, invalidations: seq<set<string>>, budget: real, i: nat)
    requires i < |invalidations|
    ensures var before := CoveredAfter(p, us, invalidations[..i], budget);
            var after := CoveredAfter(p, us, invalidations[..i + 1], budget);
            && Slate(after, Spends(p, us, invalidations[..i + 1], budget)[i])
               == Round(p, us, before - invalidations[i], budget)
            && Series(p, us, invalidations[..i + 1], budget)
               == Series(p, us, invalidations[..i], budget) + [Recall(us, after)]
            && Spends(p, us, invalidations[..i + 1], budget)
               == Spends(p, us, invalidations[..i], budget) + [Round(p, us, before - invalidations[i], budget).spent]
  {
    TakeStep(invalidations, i);
  }

  method ReplayOver(p: Prices, us: set<string>, invalidations: seq<set<string>>, budget: real)
    returns (series: seq<real>, spent: seq<real>)
    ensures series == Series(p, us, invalidations, budget) && spent == Spends(p, us, invalidations, budget)
  {
    var covered := {};
    series, spent := [], [];
    for i := 0 to |invalidations|
      invariant covered == CoveredAfter(p, us, invalidations[..i], budget)
      invariant series == Series(p, us, invalidations[..i], budget)
      invariant spent == Spends(p, us, invalidations[..i], budget)
    {
      ReplayStep(p, us, invalidations, budget, i);
      covered := covered - invalidations[i];
      var seconds: real;
      covered, seconds := RunRound(p, us, covered, budget);
      spent := spent + [seconds];
      series := series + [Recall(us, covered)];
    }
    assert invalidations[..|invalidations|] == invalidations;
  }

  lemma {:induction false} CoveredAreUnits(p: Prices, units: set<string>, invalidations: seq<set<string>>, budget: real)
    requires p.NonNegative(units)
    ensures CoveredAfter(p, units, invalidations, budget) <= units
  {
    if invalidations != [] {
      var n := |invalidations| - 1;
      CoveredAreUnits(p, units, invalidations[..n], budget);
      RoundIsSlice(p, units, CoveredAfter(p, units, invalidations[..n], budget) - invalidations[n], budget);
    }
  }

  lemma {:induction false} RecallOrder(units: set<string>, c1: set<string>, c2: set<string>)
    requires c1 <= c2 <= units
    ensures 0.0 <= Recall(units, c1) <= Recall(units, c2) <= 1.0
  {
    CardMonotone(c1, c2);
    CardMonotone(c2, units);
  }

  lemma {:induction false} RecallMonotone(p: Prices, units: set<string>, invalidations: seq<set<string>>, b1: real,
      b2: real)
    requires p.NonNegative(units) && b1 <= b2
    ensures 0.0 <= Recall(units, CoveredAfter(p, units, invalidations, b1))
                <= Recall(units, CoveredAfter(p, units, invalidations, b2)) <= 1.0
  {
    BudgetMonotone(p, units, invalidations, b1, b2);
    CoveredAreUnits(p, units, invalidations, b2);
    RecallOrder(units, CoveredAfter(p, units, invalidations, b1), CoveredAfter(p, units, invalidations, b2));
  }

  /** The i-th entry of the series is the recall after the first i + 1 rounds. */
  lemma {:induction false} SeriesAt(p: Prices, units: set<string>, invalidations: seq<set<string>>, budget: real,
      i: nat)
    requires i < |invalidations|
    ensures Series(p, units, invalidations, budget)[i]
            == Recall(units, CoveredAfter(p, units, invalidations[..i + 1], budget))
  {
    AfterEachAt(invalidations, (soFar: seq<set<string>>) => Recall(units, CoveredAfter(p, units, soFar, budget)), i);
  }

  /** So the recall series is pointwise monotone in the budget, and each entry is a fraction. */
  lemma {:induction false} SeriesMonotone(p: Prices, units: set<string>, invalidations: seq<set<string>>, b1: real,
      b2: real, i: nat)
    requires p.NonNegative(units) && b1 <= b2 && i < |invalidations|
    ensures 0.0 <= Series(p, units, invalidations, b1)[i] <= Series(p, units, invalidations, b2)[i] <= 1.0
  {
    SeriesAt(p, units, invalidations, b1, i);
    SeriesAt(p, units, invalidations, b2, i);
    RecallMonotone(p, units, invalidations[..i + 1], b1, b2);
  }

  // ------------------------------------------------------------------ commits and rounds

  const TESTS_SUBDIR := "tests"
  const IGNORED_DIRS := ["__pycache__", ".pytest_cache", ".venv", "research-env", ".git", "whence_lang.egg-info"]

  predicate IsIgnored(rel: string) {
    exists p | p in Split(rel, '/') :: p in IGNORED_DIRS || EndsWith(p, ".egg-info")
  }

  predicate IsSource(f: string) {
    (EndsWith(f, ".py") || EndsWith(f, ".lang")) && !IsIgnored(f)
  }

  /** A file in an ignored directory is no source, at whatever depth the directory lies. */
  lemma {:induction false} IgnoredAtAnyDepth(above: string, dir: string, below: string)
    requires dir in {"__pycache__", ".pytest_cache", ".venv", "research-env", ".git"} || EndsWith(dir, ".egg-info")
    requires '/' !in dir
    ensures !IsSource(dir + "/" + below) && !IsSource(above + "/" + dir + "/" + below)
  {
    SplitAt(dir, below, '/');
    assert dir + "/" + below == dir + ['/'] + below;
    assert dir in Split(dir + "/" + below, '/');
    SplitEnd(above, dir + "/" + below, '/', dir);
    assert above + "/" + dir + "/" + below == above + ['/'] + (dir + "/" + below);
  }

  predicate UnderTests(f: string) {
    Split(f, '/')[0] == TESTS_SUBDIR
  }

  /** Under the tests is what lies in the `tests` directory. */
  lemma {:induction false} UnderTestsSays(f: string)
    ensures UnderTests(f) <==> f == "tests" || "tests/" <= f
  {
    SplitHead(f, '/');
    var head := Split(f, '/')[0];
    if UnderTests(f) && f != "tests" {
      assert f[..6] == head + ['/'];
    }
    if "tests/" <= f {
      assert f == "tests" + ['/'] + f[6..];
      SplitAt("tests", f[6..], '/');
    }
  }

  /** The units one change set invalidates: all of them if it touches the subject, otherwise those
      whose dependency closure it touches. */
  function Invalidated(files: seq<string>, closures: map<string, set<string>>): set<string> {
    InvalidatedBy(Sources(files), closures)
  }

  function Sources(files: seq<string>): set<string> {
    set f | f in files && IsSource(f)
  }

  function InvalidatedBy(src: set<string>, closures: map<string, set<string>>): set<string> {
    if src == {} then {}
    else if exists f :: f in src && !UnderTests(f) then closures.Keys
    else set u | u in closures && closures[u] * src != {}
  }

  /** A unit is invalidated by exactly the source files among the changed ones that lie outside the tests, or
      in the unit's own closure. */
  lemma {:induction false} InvalidatedIs(files: seq<string>, closures: map<string, set<string>>, u: string)
    ensures u in Invalidated(files, closures)
       <==> u in closures && exists f :: f in files && IsSource(f) && (!UnderTests(f) || f in closures[u])
  {
    var src := Sources(files);
    if u in closures {
      if f :| f in files && IsSource(f) && (!UnderTests(f) || f in closures[u]) {
        assert f in src;
        if UnderTests(f) { assert f in closures[u] * src; }
      } else {
        assert !exists f :: f in src && !UnderTests(f);
        forall f ensures f !in closures[u] * src {
          assert f in src ==> f in files && IsSource(f);
        }
        assert closures[u] * src == {};
      }
    }
  }

  /** One change set per commit, in order. */
  method CommitInvalidations(commits: seq<seq<string>>, closures: map<string, set<string>>)
    returns (out: seq<set<string>>)
    ensures out == AllInvalidated(commits, closures)
  {
    out := [];
    for i := 0 to |commits|
      invariant out == AllInvalidated(commits[..i], closures)
    {
      out := out + [Invalidated(commits[i], closures)];
      assert commits[..i + 1][..i] == commits[..i];
    }
    assert commits[..|commits|] == commits;
  }

  function AllInvalidated(commits: seq<seq<string>>, closures: map<string, set<string>>): (out: seq<set<string>>)
    ensures |out| == |commits| && forall i | 0 <= i < |out| :: out[i] == Invalidated(commits[i], closures)
  {
    if commits == [] then []
    else AllInvalidated(commits[..|commits| - 1], closures) + [Invalidated(commits[|commits| - 1], closures)]
  }

  lemma {:induction false} SourcesUnion(a: seq<string>, b: seq<string>)
    ensures Sources(a + b) == Sources(a) + Sources(b)
  {
  }

  /** Two change sets in a row invalidate what their union invalidates. */
  lemma {:induction false} InvalidatedUnion(a: seq<string>, b: seq<string>, closures: map<string, set<string>>)
    ensures Invalidated(a + b, closures) == Invalidated(a, closures) + Invalidated(b, closures)
  {
    SourcesUnion(a, b);
    InvalidatedBySources(Sources(a), Sources(b), closures);
  }

  lemma {:induction false} InvalidatedBySources(sa: set<string>, sb: set<string>, closures: map<string, set<string>>)
    ensures InvalidatedBy(sa + sb, closures) == InvalidatedBy(sa, closures) + InvalidatedBy(sb, closures)
  {
    forall u | u in closures
      ensures closures[u] * (sa + sb) != {} <==> closures[u] * sa != {} || closures[u] * sb != {}
    {
      assert closures[u] * (sa + sb) == closures[u] * sa + closures[u] * sb;
    }
  }

  datatype Grouping = Grouping(groups: seq<seq<string>>, tags: seq<Option<string>>)

  predicate JoinsLast(g: Grouping, tag: Option<string>) {
    |g.groups| > 0 && |g.groups| == |g.tags| && (tag.None? || tag == g.tags[|g.tags| - 1])
  }

  /** Consecutive commits of one round share a group; a commit naming no round joins the one before. */
  function Grouped(commits: seq<seq<string>>, tags: seq<Option<string>>): (g: Grouping)
    requires |commits| == |tags|
    ensures |g.groups| == |g.tags| && (commits != [] ==> g.groups != [])
  {
    if commits == [] then Grouping([], [])
    else
      var n := |commits| - 1;
      var g := Grouped(commits[..n], tags[..n]);
      var m := |g.groups| - 1;
      if JoinsLast(g, tags[n]) then Grouping(g.groups[m := g.groups[m] + commits[n]], g.tags)
      else Grouping(g.groups + [commits[n]], g.tags + [tags[n]])
  }

  lemma {:induction false} GroupedStep(commits: seq<seq<string>>, tags: seq<Option<string>>, i: nat)
    requires i < |commits| == |tags|
    ensures var g := Grouped(commits[..i], tags[..i]);
            var m := |g.groups| - 1;
            Grouped(commits[..i + 1], tags[..i + 1])
            == if JoinsLast(g, tags[i]) then Grouping(g.groups[m := g.groups[m] + commits[i]], g.tags)
               else Grouping(g.groups + [commits[i]], g.tags + [tags[i]])
  {
    assert commits[..i + 1][..i] == commits[..i] && tags[..i + 1][..i] == tags[..i];
  }

  /** `tags[i]` is the round number the i-th commit subject names, if it names one. */
  method GroupByRound(commits: seq<seq<string>>, tags: seq<Option<string>>)
    returns (groups: seq<seq<string>>, groupTags: seq<Option<string>>)
    requires |commits| == |tags|
    ensures Grouping(groups, groupTags) == Grouped(commits, tags)
  {
    groups, groupTags := [], [];
    for i := 0 to |commits|
      invariant Grouping(groups, groupTags) == Grouped(commits[..i], tags[..i])
    {
      GroupedStep(commits, tags, i);
      var m := |groups| - 1;
      if |groups| > 0 && (tags[i].None? || tags[i] == groupTags[m]) {
        groups := groups[m := groups[m] + commits[i]];
      } else {
        groups := groups + [commits[i]];
        groupTags := groupTags + [tags[i]];
      }
    }
    assert commits[..|commits|] == commits && tags[..|tags|] == tags;
  }

  function Flatten(groups: seq<seq<string>>): seq<string> {
    if groups == [] then [] else Flatten(groups[..|groups| - 1]) + groups[|groups| - 1]
  }

  lemma {:induction false} FlattenJoined(groups: seq<seq<string>>, commit: seq<string>)
    requires groups != []
    ensures var m := |groups| - 1; Flatten(groups[m := groups[m] + commit]) == Flatten(groups) + commit
  {
    var m := |groups| - 1;
    assert groups[m := groups[m] + commit][..m] == groups[..m];
  }

  lemma {:induction false} FlattenAdded(groups: seq<seq<string>>, commit: seq<string>)
    ensures Flatten(groups + [commit]) == Flatten(groups) + commit
  {
    assert (groups + [commit])[..|groups|] == groups;
  }

  /** Grouping loses no file, invents none and reorders none. */
  lemma {:induction false} GroupingKeepsFiles(commits: seq<seq<string>>, tags: seq<Option<string>>)
    requires |commits| == |tags|
    ensures Flatten(Grouped(commits, tags).groups) == Flatten(commits)
  {
    if commits != [] {
      var n := |commits| - 1;
      GroupingKeepsFiles(commits[..n], tags[..n]);
      var g := Grouped(commits[..n], tags[..n]);
      if JoinsLast(g, tags[n]) {
        FlattenJoined(g.groups, commits[n]);
      } else {
        FlattenAdded(g.groups, commits[n]);
      }
    }
  }

  /** The k-th group is the stretch of commits between two cuts; it takes its tag from the first of them, and
      no other of them names another round. */
  ghost predicate IsStretch(commits: seq<seq<string>>, tags: seq<Option<string>>, g: Grouping, cuts: seq<nat>, k: nat)
    requires |commits| == |tags| && k + 1 < |cuts| && k < |g.groups| == |g.tags|
  {
    && cuts[k] < cuts[k + 1] <= |commits| && g.groups[k] == Flatten(commits[cuts[k]..cuts[k + 1]])
    && g.tags[k] == tags[cuts[k]]
    && forall i | cuts[k] <= i < cuts[k + 1] :: tags[i].Some? ==> tags[i] == g.tags[k]
  }

  ghost predicate AreStretches(commits: seq<seq<string>>, tags: seq<Option<string>>, g: Grouping, cuts: seq<nat>) {
    && |commits| == |tags| && |g.groups| == |g.tags| && |cuts| == |g.groups| + 1
    && cuts[0] == 0 && cuts[|g.groups|] == |commits|
    && forall k | 0 <= k < |g.groups| :: IsStretch(commits, tags, g, cuts, k)
  }

  lemma {:induction false} FlattenStretch(commits: seq<seq<string>>, a: nat, b: nat)
    requires a <= b < |commits|
    ensures Flatten(commits[a..b + 1]) == Flatten(commits[a..b]) + commits[b]
  {
    assert commits[a..b + 1][..b - a] == commits[a..b];
  }

  lemma {:induction false} StretchKept(commits: seq<seq<string>>, tags: seq<Option<string>>, g: Grouping,
      cuts: seq<nat>, g': Grouping, cuts': seq<nat>, k: nat)
    requires |commits| == |tags| > 0 && k < |g.groups| == |g.tags| && k < |g'.groups| == |g'.tags|
    requires k + 1 < |cuts| && k + 1 < |cuts'|
    requires IsStretch(commits[..|commits| - 1], tags[..|tags| - 1], g, cuts, k)
    requires g'.groups[k] == g.groups[k] && g'.tags[k] == g.tags[k]
    requires cuts'[k] == cuts[k] && cuts'[k + 1] == cuts[k + 1]
    ensures IsStretch(commits, tags, g', cuts', k)
  {
    assert commits[..|commits| - 1][cuts[k]..cuts[k + 1]] == commits[cuts[k]..cuts[k + 1]];
  }

  /** Each group is a stretch of neighbouring commits, so commits that name two different rounds never share
      one, and a group ends only where the next commit names another round. */
  lemma {:induction false} GroupsAreStretches(commits: seq<seq<string>>, tags: seq<Option<string>>)
    returns (cuts: seq<nat>)
    requires |commits| == |tags|
    ensures AreStretches(commits, tags, Grouped(commits, tags), cuts)
  {
    if commits == [] { return [0]; }
    var n := |commits| - 1;
    var before := GroupsAreStretches(commits[..n], tags[..n]);
    if JoinsLast(Grouped(commits[..n], tags[..n]), tags[n]) {
      cuts := StretchLonger(commits, tags, Grouped(commits[..n], tags[..n]), before);
    } else {
      cuts := StretchBegun(commits, tags, Grouped(commits[..n], tags[..n]), before);
    }
  }

  lemma {:induction false} StretchLonger(commits: seq<seq<string>>, tags: seq<Option<string>>, g: Grouping,
      before: seq<nat>) returns (cuts: seq<nat>)
    requires |commits| == |tags| > 0 && AreStretches(commits[..|commits| - 1], tags[..|tags| - 1], g, before)
    requires JoinsLast(g, tags[|tags| - 1])
    ensures var m := |g.groups| - 1;
            AreStretches(commits, tags, Grouping(g.groups[m := g.groups[m] + commits[|commits| - 1]], g.tags), cuts)
  {
    var n, m := |commits| - 1, |g.groups| - 1;
    var g' := Grouping(g.groups[m := g.groups[m] + commits[n]], g.tags);
    cuts := before[..m + 1] + [n + 1];
    forall k | 0 <= k < m ensures IsStretch(commits, tags, g', cuts, k) {
      StretchKept(commits, tags, g, before, g', cuts, k);
    }
    LastStretch(commits, tags, g, before, g', cuts);
  }

  lemma {:induction false} LastStretch(commits: seq<seq<string>>, tags: seq<Option<string>>, g: Grouping,
      before: seq<nat>, g': Grouping, cuts: seq<nat>)
    requires |commits| == |tags| > 0 && |g.groups| == |g.tags| == |g'.groups| == |g'.tags| > 0
    requires |before| == |cuts| == |g.groups| + 1
    requires IsStretch(commits[..|commits| - 1], tags[..|tags| - 1], g, before, |g.groups| - 1)
    requires JoinsLast(g, tags[|tags| - 1]) && g'.tags == g.tags
    requires g'.groups[|g.groups| - 1] == g.groups[|g.groups| - 1] + commits[|commits| - 1]
    requires cuts[|g.groups| - 1] == before[|g.groups| - 1]
    requires before[|g.groups|] == |commits| - 1 && cuts[|g.groups|] == |commits|
    ensures IsStretch(commits, tags, g', cuts, |g.groups| - 1)
  {
    var n, m := |commits| - 1, |g.groups| - 1;
    assert commits[..n][before[m]..n] == commits[before[m]..n];
    FlattenStretch(commits, before[m], n);
  }

  lemma {:induction false} StretchBegun(commits: seq<seq<string>>, tags: seq<Option<string>>, g: Grouping,
      before: seq<nat>) returns (cuts: seq<nat>)
    requires |commits| == |tags| > 0 && AreStretches(commits[..|commits| - 1], tags[..|tags| - 1], g, before)
    ensures AreStretches(commits, tags, Grouping(g.groups + [commits[|commits| - 1]], g.tags + [tags[|tags| - 1]]),
                         cuts)
  {
    var n, m := |commits| - 1, |g.groups| - 1;
    var g' := Grouping(g.groups + [commits[n]], g.tags + [tags[n]]);
    cuts := before + [n + 1];
    forall k | 0 <= k <= m ensures IsStretch(commits, tags, g', cuts, k) {
      StretchKept(commits, tags, g, before, g', cuts, k);
    }
    FlattenStretch(commits, n, n);
    assert commits[n..n] == [];
  }

  ghost predicate NamesNewRound(t: seq<Option<string>>, i: nat) {
    0 < i < |t| ==> t[i].Some? && t[i] != t[i - 1]
  }

  /** A group after the first names its round, and never the round of the group before it. */
  lemma {:induction false} NeighboursDiffer(commits: seq<seq<string>>, tags: seq<Option<string>>, i: nat)
    requires |commits| == |tags|
    ensures NamesNewRound(Grouped(commits, tags).tags, i)
  {
    if commits != [] {
      var n := |commits| - 1;
      NeighboursDiffer(commits[..n], tags[..n], i);
    }
  }

  /** A commit that joins the last group: invalidating both at once covers no more than one after the
      other, the slice between them included. */
  lemma {:induction false} JoiningNeverRaises(p: Prices, units: set<string>, earlier: set<string>, before: set<string>,
      now: set<string>, fine: set<string>, budget: real)
    requires p.NonNegative(units) && Round(p, units, earlier - before, budget).covered <= fine
    ensures Round(p, units, earlier - (before + now), budget).covered <= Round(p, units, fine - now, budget).covered
  {
    RoundIsSlice(p, units, earlier - before, budget);
    assert earlier - before <= fine;
    RoundMonotone(p, units, earlier - (before + now), fine - now, budget, budget);
  }

  lemma {:induction false} CoveredStep(p: Prices, units: set<string>, groups: seq<seq<string>>,
      closures: map<string, set<string>>, budget: real)
    requires groups != []
    ensures var n := |groups| - 1;
            Coverage(p, units, groups, closures, budget)
            == Round(p, units, Coverage(p, units, groups[..n], closures, budget) - Invalidated(groups[n], closures),
                     budget).covered
  {
    var n := |groups| - 1;
    assert AllInvalidated(groups, closures)[..n] == AllInvalidated(groups[..n], closures);
  }

  /** What is covered after one round per group. */
  function Coverage(p: Prices, units: set<string>, groups: seq<seq<string>>, closures: map<string, set<string>>,
      budget: real): set<string> {
    CoveredAfter(p, units, AllInvalidated(groups, closures), budget)
  }

  lemma {:induction false} JoinedCoverage(p: Prices, units: set<string>, groups: seq<seq<string>>, commit: seq<string>,
      closures: map<string, set<string>>, budget: real, fine: set<string>)
    requires p.NonNegative(units) && groups != [] && Coverage(p, units, groups, closures, budget) <= fine
    ensures var m := |groups| - 1;
            Coverage(p, units, groups[m := groups[m] + commit], closures, budget)
            <= Round(p, units, fine - Invalidated(commit, closures), budget).covered
  {
    var m := |groups| - 1;
    var joined := groups[m := groups[m] + commit];
    CoveredStep(p, units, groups, closures, budget);
    CoveredStep(p, units, joined, closures, budget);
    assert joined[..m] == groups[..m];
    InvalidatedUnion(groups[m], commit, closures);
    JoiningNeverRaises(p, units, Coverage(p, units, groups[..m], closures, budget), Invalidated(groups[m], closures),
                       Invalidated(commit, closures), fine, budget);
  }

  lemma {:induction false} AddedCoverage(p: Prices, units: set<string>, groups: seq<seq<string>>, commit: seq<string>,
      closures: map<string, set<string>>, budget: real, fine: set<string>)
    requires p.NonNegative(units) && Coverage(p, units, groups, closures, budget) <= fine
    ensures Coverage(p, units, groups + [commit], closures, budget)
            <= Round(p, units, fine - Invalidated(commit, closures), budget).covered
  {
    var now := Invalidated(commit, closures);
    CoveredStep(p, units, groups + [commit], closures, budget);
    assert (groups + [commit])[..|groups|] == groups;
    RoundMonotone(p, units, Coverage(p, units, groups, closures, budget) - now, fine - now, budget, budget);
  }

  /** Why the grouping matters: pricing one slice per commit instead of one per round can only
      overstate what is covered. */
  lemma {:induction false} GroupingNeverRaisesCoverage(p: Prices, units: set<string>, commits: seq<seq<string>>,
      tags: seq<Option<string>>, closures: map<string, set<string>>, budget: real)
    requires p.NonNegative(units) && |commits| == |tags|
    ensures Coverage(p, units, Grouped(commits, tags).groups, closures, budget)
         <= Coverage(p, units, commits, closures, budget)
  {
    if commits != [] {
      var n := |commits| - 1;
      GroupingNeverRaisesCoverage(p, units, commits[..n], tags[..n], closures, budget);
      var g := Grouped(commits[..n], tags[..n]);
      var fine := Coverage(p, units, commits[..n], closures, budget);
      CoveredStep(p, units, commits, closures, budget);
      if JoinsLast(g, tags[n]) {
        JoinedCoverage(p, units, g.groups, commits[n], closures, budget, fine);
      } else {
        AddedCoverage(p, units, g.groups, commits[n], closures, budget, fine);
      }
    }
  }
}
