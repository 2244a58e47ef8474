/** harness/reddebt.py: what is red now, for how long, and how often before. */
module RedDebt {
  import opened Text
  import opened Seqs
  import opened Order
  import opened RedAttrib

  /** One full pass of the track rotation. */
  const ROTATION := 6

  datatype Verdict = Green | Red | NoVerdict

  datatype Row = Row(verdict: Verdict, nodes: set<string>)

  datatype Check = Check(prefix: string, name: string)

  /** One check's rows, by round. */
  type Rows = map<int, Row>

  /** One check's rows in `check_rounds`: a round that could not run has no verdict, whatever it lists. */
  function CheckRows(runs: map<int, set<string>>, blind: set<int>): Rows {
    map r | r in runs ::
      if r in blind then Row(NoVerdict, {})
      else Row(if runs[r] == {} then Green else Red, runs[r])
  }

  /** The red nodes each check's logs list, by round. */
  type Logs = map<string, map<int, set<string>>>

  function BlindOf(blind: map<string, set<int>>, prefix: string): set<int> {
    if prefix in blind then blind[prefix] else {}
  }

  function AllRows(runs: Logs, blind: map<string, set<int>>): map<string, Rows> {
    map prefix | prefix in runs :: CheckRows(runs[prefix], BlindOf(blind, prefix))
  }

  /** `check_rounds`. */
  method CheckRounds(runs: Logs, blind: map<string, set<int>>) returns (out: map<string, Rows>)
    ensures out == AllRows(runs, blind)
  {
    out := map[];
    var left := runs.Keys;
    while left != {}
      invariant left <= runs.Keys && out.Keys == runs.Keys - left
      invariant forall k | k in out :: out[k] == CheckRows(runs[k], BlindOf(blind, k))
      decreases |left|
    {
      var prefix :| prefix in left;
      var rows := RowsFrom(runs[prefix], BlindOf(blind, prefix));
      out := out[prefix := rows];
      left := left - {prefix};
    }
    SameTables(out, AllRows(runs, blind));
  }

  lemma {:induction false} SameTables(a: map<string, Rows>, b: map<string, Rows>)
    requires a.Keys == b.Keys && forall k | k in a :: a[k] == b[k]
    ensures a == b
  {
  }

  function AnyOf(s: set<int>): (x: int)
    requires s != {}
    ensures x in s
  {
    SortedInts(s)[0]
  }

  /** The inner loop. */
  method RowsFrom(perRound: map<int, set<string>>, blind: set<int>) returns (rows: Rows)
    ensures rows == CheckRows(perRound, blind)
  {
    rows := map[];
    var left := perRound.Keys;
    while left != {}
      invariant left <= perRound.Keys
      invariant forall r :: r in rows <==> r in perRound && r !in left
      invariant forall r | r in rows :: rows[r] == CheckRows(perRound, blind)[r]
      decreases |left|
    {
      var rnd := AnyOf(left);
      var nodes := perRound[rnd];
      if rnd in blind {
        rows := rows[rnd := Row(NoVerdict, {})];
      } else {
        rows := rows[rnd := Row(if nodes != {} then Red else Green, nodes)];
      }
      left := left - {rnd};
    }
    SameRows(rows, CheckRows(perRound, blind));
  }

  lemma {:induction false} SameRows(a: Rows, b: Rows)
    requires forall r :: r in a <==> r in b
    requires forall r | r in a :: a[r] == b[r]
    ensures a == b
  {
    forall r ensures r in a.Keys <==> r in b.Keys {
    }
    assert a.Keys == b.Keys;
    assert forall r | r in a :: a[r] == b[r];
  }

  function Filter(s: seq<int>, p: int -> bool): (r: seq<int>)
    ensures forall x :: x in r <==> x in s && p(x)
  {
    if s == [] then []
    else
      var n := |s| - 1;
      assert s == s[..n] + [s[n]];
      if p(s[n]) then Filter(s[..n], p) + [s[n]] else Filter(s[..n], p)
  }

  lemma {:induction false} FilterAscends(s: seq<int>, p: int -> bool)
    requires Ascending(s, IntLess)
    ensures Ascending(Filter(s, p), IntLess)
  {
    if s != [] {
      var n := |s| - 1;
      forall i, j | 0 <= i < j < n ensures IntLess(s[..n][i], s[..n][j]) { InOrder(s, IntLess, i, j); }
      FilterAscends(s[..n], p);
      var f := Filter(s[..n], p);
      forall i | 0 <= i < |f| ensures f[i] < s[n] {
        assert f[i] in f;
        var k :| 0 <= k < n && s[..n][k] == f[i];
        InOrder(s, IntLess, k, n);
      }
    }
  }

  /** The rounds with a readable verdict, oldest first. */
  function WithVerdict(per: Rows): (wv: seq<int>)
    ensures forall r :: r in wv <==> r in per && per[r].verdict != NoVerdict
  {
    Filter(SortedInts(per.Keys), r => r in per && per[r].verdict != NoVerdict)
  }

  datatype State = State(
    check: string, nLogs: nat, lastLogRound: Option<int>, lastVerdictRound: Option<int>,
    verdict: Option<Verdict>, redNodes: seq<string>, staleRounds: nat)

  function Last(s: seq<int>): Option<int> {
    if s == [] then None else Some(s[|s| - 1])
  }

  function StateOf(name: string, per: Rows): State {
    var ordered := SortedInts(per.Keys);
    var last := Last(WithVerdict(per));
    if last.None? then State(name, |ordered|, Last(ordered), None, None, [], 0)
    else
      assert last.value in WithVerdict(per);
      var row := per[last.value];
      State(name, |ordered|, Last(ordered), last, Some(row.verdict), Sorted(row.nodes),
            |Filter(ordered, r => r > last.value)|)
  }

  /** `rows.get(prefix, {})`. */
  function RowsOf(rows: map<string, Rows>, prefix: string): Rows {
    if prefix in rows then rows[prefix] else map[]
  }

  method CheckState(checks: seq<Check>, rows: map<string, Rows>) returns (out: seq<State>)
    ensures out == Map(checks, (c: Check) => StateOf(c.name, RowsOf(rows, c.prefix)))
  {
    out := [];
    var f := (c: Check) => StateOf(c.name, RowsOf(rows, c.prefix));
    for i := 0 to |checks|
      invariant out == Map(checks[..i], f)
    {
      TakeStep(checks, i);
      out := out + [StateOf(checks[i].name, RowsOf(rows, checks[i].prefix))];
    }
    TakeAll(checks);
  }

  // ------------------------------------------------------------------ one node's history

  /** The verdict rounds in which the node is red. */
  function RedRounds(node: string, wv: seq<int>, per: Rows): set<int> {
    set r | r in wv && r in per && node in per[r].nodes
  }

  lemma {:induction false} TrailingIs(rounds: seq<int>, red: set<int>, n: nat)
    requires n <= |rounds|
    requires forall k | n <= k < |rounds| :: rounds[k] in red
    requires n > 0 ==> rounds[n - 1] !in red
    ensures Trailing(rounds, red) == |rounds| - n
  {
    TrailingIsRed(rounds, red);
  }

  /** `_episode`: the backward walk. */
  method EpisodeBack(node: string, wv: seq<int>, per: Rows) returns (first: Option<int>, age: nat)
    requires forall r | r in wv :: r in per
    ensures age == Trailing(wv, RedRounds(node, wv, per))
    ensures first == if age == 0 then None else Some(wv[|wv| - age])
  {
    age, first := 0, None;
    var i := |wv|;
    ghost var red := RedRounds(node, wv, per);
    while i > 0
      invariant 0 <= i <= |wv| && age == |wv| - i
      invariant forall k | i <= k < |wv| :: wv[k] in red
      invariant first == if age == 0 then None else Some(wv[i])
    {
      var rnd := wv[i - 1];
      if node !in per[rnd].nodes {
        break;
      }
      age := age + 1;
      first := Some(rnd);
      i := i - 1;
    }
    TrailingIs(wv, red, i);
  }

  /** The walk and `episodes_for` agree: a node is red at the end exactly when its last episode is
      open, and then the walk found that episode's opening round and its length. */
  lemma {:induction false} WalkAgreesWithEpisodes(rounds: seq<int>, red: set<int>)
    ensures var eps, age := Episodes(rounds, red), Trailing(rounds, red);
            && (age > 0 <==> eps != [] && eps[|eps| - 1].close.None?)
            && (age > 0 ==> && eps[|eps| - 1].open == rounds[|rounds| - age]
                            && |eps[|eps| - 1].rounds| == age)
  {
    CurrentIsTrailing(rounds, red);
    ClosedHaveEnd(rounds, red);
  }

  lemma {:induction false} ClosedHaveEnd(rounds: seq<int>, red: set<int>)
    ensures forall e | e in WalkOver(rounds, red).closed :: e.close.Some?
  {
    if rounds != [] { ClosedHaveEnd(rounds[..|rounds| - 1], red); }
  }

  // ------------------------------------------------------------------ the debt

  datatype Record = Record(
    check: string, node: string, owner: Option<string>, firstRedRound: Option<int>, age: nat,
    opener: Option<string>, invisibleOpen: bool, recurrent: bool, priorEpisodes: nat,
    priorEpisodesAll: nat, lastClosedRound: Option<int>, overdue: bool, window: nat, staleRounds: nat)

  /** A Python value that is neither missing nor empty. */
  predicate Truthy(s: Option<string>) {
    s.Some? && s.value != ""
  }

  /** `wv[-window:] if window else wv`. */
  function Recent(wv: seq<int>, window: nat): seq<int> {
    if window == 0 || window >= |wv| then wv else wv[|wv| - window..]
  }

  function RecordOf(st: State, node: string, per: Rows, tracks: map<int, string>, owner: string -> Option<string>,
      window: nat): Record
  {
    var wv := WithVerdict(per);
    RecordFrom(st, node, wv, RedRounds(node, wv, per), tracks, owner, window)
  }

  function RecordFrom(st: State, node: string, wv: seq<int>, red: set<int>, tracks: map<int, string>,
      owner: string -> Option<string>, window: nat): Record
  {
    var recent := Recent(wv, window);
    var age := Trailing(wv, red);
    Compose(st, node, if age == 0 then None else Some(wv[|wv| - age]), age, Closed(Episodes(wv, red)),
            Closed(Episodes(recent, red * Elems(recent))), |recent|, tracks, owner)
  }

  /** The record's fields from what the walk and the two episode lists found. */
  function Compose(st: State, node: string, first: Option<int>, age: nat, priorAll: seq<Episode>,
      priorWin: seq<Episode>, window: nat, tracks: map<int, string>, owner: string -> Option<string>): Record
  {
    var opener := if first.Some? && first.value in tracks then Some(tracks[first.value]) else None;
    Record(st.check, node, owner(node), first, age, opener,
           Truthy(opener) && Truthy(owner(node)) && opener != owner(node),
           priorWin != [], |priorWin|, |priorAll|, if priorAll == [] then None else priorAll[|priorAll| - 1].close,
           age >= ROTATION, window, st.staleRounds)
  }

  /** The records one check contributes. */
  function RecordsOf(c: Check, per: Rows, tracks: map<int, string>, owner: string -> Option<string>,
      window: nat): seq<Record>
  {
    RecordsIn(StateOf(c.name, per), per, tracks, owner, window)
  }

  function RecordsIn(st: State, per: Rows, tracks: map<int, string>, owner: string -> Option<string>,
      window: nat): seq<Record>
  {
    if st.verdict != Some(Red) then []
    else Map(st.redNodes, (node: string) => RecordOf(st, node, per, tracks, owner, window))
  }

  /** The report's order: oldest first, then check, then node. */
  predicate Before(a: Record, b: Record) {
    a.age > b.age || (a.age == b.age && (Less(a.check, b.check) || (a.check == b.check && Less(a.node, b.node))))
  }

  function DebtOf(checks: seq<Check>, rows: map<string, Rows>, tracks: map<int, string>,
      owner: string -> Option<string>, window: nat): seq<Record>
  {
    Arrange(FlatMap(checks, (c: Check) => RecordsOf(c, RowsOf(rows, c.prefix), tracks, owner, window)), Before)
  }

  method MakeRecord(st: State, node: string, per: Rows, wv: seq<int>, recent: seq<int>, tracks: map<int, string>,
      owner: string -> Option<string>, window: nat)
    returns (record: Record)
    requires wv == WithVerdict(per) && recent == Recent(wv, window)
    ensures record == RecordOf(st, node, per, tracks, owner, window)
  {
    var first, age := EpisodeBack(node, wv, per);
    var redAll := RedRounds(node, wv, per);
    var epsAll := EpisodesFor(wv, redAll);
    var epsWin := EpisodesFor(recent, redAll * Elems(recent));
    RecordIs(st, node, wv, redAll, tracks, owner, window, first, age);
    record := Compose(st, node, first, age, Closed(epsAll), Closed(epsWin), |recent|, tracks, owner);
  }

  lemma {:induction false} RecordIs(st: State, node: string, wv: seq<int>, red: set<int>, tracks: map<int, string>,
      owner: string -> Option<string>, window: nat, first: Option<int>, age: nat)
    requires age == Trailing(wv, red) && first == if age == 0 then None else Some(wv[|wv| - age])
    ensures var recent := Recent(wv, window);
            RecordFrom(st, node, wv, red, tracks, owner, window)
            == Compose(st, node, first, age, Closed(Episodes(wv, red)), Closed(Episodes(recent, red * Elems(recent))),
                       |recent|, tracks, owner)
  {
  }

  method Debt(checks: seq<Check>, rows: map<string, Rows>, tracks: map<int, string>, owner: string -> Option<string>,
      window: nat)
    returns (out: seq<Record>)
    ensures out == DebtOf(checks, rows, tracks, owner, window)
  {
    out := [];
    ghost var of := (c: Check) => RecordsOf(c, RowsOf(rows, c.prefix), tracks, owner, window);
    for i := 0 to |checks|
      invariant out == FlatMap(checks[..i], of)
    {
      TakeStep(checks, i);
      var per := RowsOf(rows, checks[i].prefix);
      var records := CheckDebt(checks[i], per, tracks, owner, window);
      out := out + records;
    }
    TakeAll(checks);
    out := Arrange(out, Before);
  }

  /** The body of the outer loop. */
  method CheckDebt(c: Check, per: Rows, tracks: map<int, string>, owner: string -> Option<string>, window: nat)
    returns (out: seq<Record>)
    ensures out == RecordsOf(c, per, tracks, owner, window)
  {
    var st := StateOf(c.name, per);
    out := [];
    if st.lastVerdictRound.None? || st.verdict != Some(Red) {
      return;
    }
    var wv := WithVerdict(per);
    var recent := Recent(wv, window);
    var nodes := st.redNodes;
    ghost var f := (node: string) => RecordOf(st, node, per, tracks, owner, window);
    for j := 0 to |nodes|
      invariant out == Map(nodes[..j], f)
    {
      TakeStep(nodes, j);
      var record := MakeRecord(st, nodes[j], per, wv, recent, tracks, owner, window);
      out := out + [record];
    }
    TakeAll(nodes);
  }

  // ------------------------------------------------------------------ rounds that could not run

  /** `rows'` is `rows` with rounds added in which the check reached no verdict. */
  ghost predicate AddsNoVerdict(rows: Rows, rows': Rows) {
    && rows.Keys <= rows'.Keys
    && forall r | r in rows' :: if r in rows then rows'[r] == rows[r] else rows'[r].verdict == NoVerdict
  }

  lemma {:induction false} VerdictRoundsUnchanged(rows: Rows, rows': Rows)
    requires AddsNoVerdict(rows, rows')
    ensures WithVerdict(rows') == WithVerdict(rows)
  {
    FilterAscends(SortedInts(rows.Keys), r => r in rows && rows[r].verdict != NoVerdict);
    FilterAscends(SortedInts(rows'.Keys), r => r in rows' && rows'[r].verdict != NoVerdict);
    AscendingUnique(WithVerdict(rows), WithVerdict(rows'), IntLess);
  }

  /** Forgetting how stale a record is. */
  function Unstale(r: Record): Record {
    r.(staleRounds := 0)
  }

  lemma {:induction false} ComposeUnchanged(st: State, st': State, node: string, first: Option<int>, age: nat,
      priorAll: seq<Episode>, priorWin: seq<Episode>, window: nat, tracks: map<int, string>,
      owner: string -> Option<string>)
    requires st.check == st'.check
    ensures Unstale(Compose(st', node, first, age, priorAll, priorWin, window, tracks, owner))
         == Unstale(Compose(st, node, first, age, priorAll, priorWin, window, tracks, owner))
  {
  }

  lemma {:induction false} RedRoundsUnchanged(node: string, rows: Rows, rows': Rows)
    requires AddsNoVerdict(rows, rows')
    ensures RedRounds(node, WithVerdict(rows), rows') == RedRounds(node, WithVerdict(rows), rows)
  {
  }

  lemma {:induction false} RecordUnchanged(st: State, st': State, node: string, rows: Rows, rows': Rows,
      tracks: map<int, string>, owner: string -> Option<string>, window: nat)
    requires AddsNoVerdict(rows, rows') && st.check == st'.check
    ensures Unstale(RecordOf(st', node, rows', tracks, owner, window))
         == Unstale(RecordOf(st, node, rows, tracks, owner, window))
  {
    VerdictRoundsUnchanged(rows, rows');
    RedRoundsUnchanged(node, rows, rows');
    RecordFromUnchanged(st, st', node, WithVerdict(rows), RedRounds(node, WithVerdict(rows), rows), tracks, owner,
                        window);
  }

  lemma {:induction false} RecordFromUnchanged(st: State, st': State, node: string, wv: seq<int>, red: set<int>,
      tracks: map<int, string>, owner: string -> Option<string>, window: nat)
    requires st.check == st'.check
    ensures Unstale(RecordFrom(st', node, wv, red, tracks, owner, window))
         == Unstale(RecordFrom(st, node, wv, red, tracks, owner, window))
  {
    var recent := Recent(wv, window);
    var age := Trailing(wv, red);
    ComposeUnchanged(st, st', node, if age == 0 then None else Some(wv[|wv| - age]), age, Closed(Episodes(wv, red)),
                     Closed(Episodes(recent, red * Elems(recent))), |recent|, tracks, owner);
  }

  lemma {:induction false} StateUnchanged(name: string, rows: Rows, rows': Rows)
    requires AddsNoVerdict(rows, rows')
    ensures var st, st' := StateOf(name, rows), StateOf(name, rows');
            && st'.check == st.check && st'.verdict == st.verdict && st'.redNodes == st.redNodes
            && st'.lastVerdictRound == st.lastVerdictRound
  {
    VerdictRoundsUnchanged(rows, rows');
  }

  lemma {:induction false} MapUnchanged(nodes: seq<string>, st: State, st': State, rows: Rows, rows': Rows,
      tracks: map<int, string>, owner: string -> Option<string>, window: nat)
    requires AddsNoVerdict(rows, rows') && st.check == st'.check
    ensures Map(Map(nodes, (node: string) => RecordOf(st', node, rows', tracks, owner, window)), Unstale)
         == Map(Map(nodes, (node: string) => RecordOf(st, node, rows, tracks, owner, window)), Unstale)
  {
    if nodes != [] {
      var n := |nodes| - 1;
      MapUnchanged(nodes[..n], st, st', rows, rows', tracks, owner, window);
      RecordUnchanged(st, st', nodes[n], rows, rows', tracks, owner, window);
      MapStep(nodes, (node: string) => RecordOf(st, node, rows, tracks, owner, window));
      MapStep(nodes, (node: string) => RecordOf(st', node, rows', tracks, owner, window));
    }
  }

  lemma {:induction false} RecordsUnchanged(c: Check, per: Rows, per': Rows, tracks: map<int, string>,
      owner: string -> Option<string>, window: nat)
    requires AddsNoVerdict(per, per')
    ensures Map(RecordsOf(c, per', tracks, owner, window), Unstale)
            == Map(RecordsOf(c, per, tracks, owner, window), Unstale)
  {
    StateUnchanged(c.name, per, per');
    RecordsInUnchanged(StateOf(c.name, per), StateOf(c.name, per'), per, per', tracks, owner, window);
  }

  lemma {:induction false} RecordsInUnchanged(st: State, st': State, per: Rows, per': Rows, tracks: map<int, string>,
      owner: string -> Option<string>, window: nat)
    requires AddsNoVerdict(per, per')
    requires st'.check == st.check && st'.verdict == st.verdict && st'.redNodes == st.redNodes
    ensures Map(RecordsIn(st', per', tracks, owner, window), Unstale)
            == Map(RecordsIn(st, per, tracks, owner, window), Unstale)
  {
    MapUnchanged(st.redNodes, st, st', per, per', tracks, owner, window);
  }

  lemma {:induction false} MapStep<S>(s: seq<S>, f: S -> Record)
    requires s != []
    ensures Map(Map(s, f), Unstale) == Map(Map(s[..|s| - 1], f), Unstale) + [Unstale(f(s[|s| - 1]))]
  {
    assert Map(s, f)[..|s| - 1] == Map(s[..|s| - 1], f);
  }

  lemma {:induction false} MapConcat(a: seq<Record>, b: seq<Record>)
    ensures Map(a + b, Unstale) == Map(a, Unstale) + Map(b, Unstale)
  {
    if b == [] {
      assert a + b == a;
    } else {
      var n := |b| - 1;
      assert (a + b)[..|a + b| - 1] == a + b[..n];
      MapConcat(a, b[..n]);
    }
  }

  ghost predicate AllAddNoVerdict(checks: seq<Check>, rows: map<string, Rows>, rows': map<string, Rows>) {
    forall c | c in checks :: AddsNoVerdict(RowsOf(rows, c.prefix), RowsOf(rows', c.prefix))
  }

  lemma {:induction false} ListUnchanged(checks: seq<Check>, rows: map<string, Rows>, rows': map<string, Rows>,
      tracks: map<int, string>, owner: string -> Option<string>, window: nat)
    requires AllAddNoVerdict(checks, rows, rows')
    ensures Map(FlatMap(checks, (c: Check) => RecordsOf(c, RowsOf(rows', c.prefix), tracks, owner, window)), Unstale)
         == Map(FlatMap(checks, (c: Check) => RecordsOf(c, RowsOf(rows, c.prefix), tracks, owner, window)), Unstale)
  {
    if checks != [] {
      var n := |checks| - 1;
      var c := checks[n];
      ListUnchanged(checks[..n], rows, rows', tracks, owner, window);
      var per, per' := RowsOf(rows, c.prefix), RowsOf(rows', c.prefix);
      RecordsUnchanged(c, per, per', tracks, owner, window);
      MapConcat(FlatMap(checks[..n], (c: Check) => RecordsOf(c, RowsOf(rows, c.prefix), tracks, owner, window)),
                RecordsOf(c, per, tracks, owner, window));
      MapConcat(FlatMap(checks[..n], (c: Check) => RecordsOf(c, RowsOf(rows', c.prefix), tracks, owner, window)),
                RecordsOf(c, per', tracks, owner, window));
    }
  }

  /** Adding rounds in which a check could not run, anywhere, changes nothing in the report but how
      stale it says it is: the same records, in the same order, with the same fields. */
  lemma {:induction false} DebtIgnoresNoVerdict(checks: seq<Check>, rows: map<string, Rows>, rows': map<string, Rows>,
      tracks: map<int, string>, owner: string -> Option<string>, window: nat)
    requires AllAddNoVerdict(checks, rows, rows')
    ensures Map(DebtOf(checks, rows', tracks, owner, window), Unstale)
         == Map(DebtOf(checks, rows, tracks, owner, window), Unstale)
  {
    ListUnchanged(checks, rows, rows', tracks, owner, window);
    MapArrange(FlatMap(checks, (c: Check) => RecordsOf(c, RowsOf(rows, c.prefix), tracks, owner, window)), Before,
               Unstale);
    MapArrange(FlatMap(checks, (c: Check) => RecordsOf(c, RowsOf(rows', c.prefix), tracks, owner, window)), Before,
               Unstale);
  }

  /** The logs of the runs that could run. */
  function Readable(runs: Logs, blind: map<string, set<int>>): Logs {
    map prefix | prefix in runs :: ReadableRounds(runs[prefix], BlindOf(blind, prefix))
  }

  function ReadableRounds(perRound: map<int, set<string>>, blind: set<int>): map<int, set<string>> {
    map r | r in perRound && r !in blind :: perRound[r]
  }

  /** Whatever the logs of killed runs list, the report is the one without those logs, but for how stale it
      says it is. */
  lemma {:induction false} KilledRunsOnlyAge(checks: seq<Check>, runs: Logs, blind: map<string, set<int>>,
      tracks: map<int, string>, owner: string -> Option<string>, window: nat)
    ensures Map(DebtOf(checks, AllRows(runs, blind), tracks, owner, window), Unstale)
         == Map(DebtOf(checks, AllRows(Readable(runs, blind), map[]), tracks, owner, window), Unstale)
  {
    var readable, rows := AllRows(Readable(runs, blind), map[]), AllRows(runs, blind);
    forall c | c in checks ensures AddsNoVerdict(RowsOf(readable, c.prefix), RowsOf(rows, c.prefix)) {
      KilledAddNoVerdict(runs, blind, c.prefix);
    }
    DebtIgnoresNoVerdict(checks, readable, rows, tracks, owner, window);
  }

  lemma {:induction false} KilledAddNoVerdict(runs: Logs, blind: map<string, set<int>>, prefix: string)
    ensures AddsNoVerdict(RowsOf(AllRows(Readable(runs, blind), map[]), prefix), RowsOf(AllRows(runs, blind), prefix))
  {
  }

  lemma {:induction false} AscendingLast(s: seq<int>, x: int)
    requires Ascending(s, IntLess) && x in s
    ensures x <= s[|s| - 1]
  {
    var i :| 0 <= i < |s| && s[i] == x;
    if i < |s| - 1 { InOrder(s, IntLess, i, |s| - 1); }
  }

  lemma {:induction false} LastIsLatest(name: string, per: Rows, r: int)
    requires r in per && per[r].verdict != NoVerdict
    ensures StateOf(name, per).lastVerdictRound.Some? && r <= StateOf(name, per).lastVerdictRound.value
  {
    var wv := WithVerdict(per);
    assert r in wv;
    FilterAscends(SortedInts(per.Keys), r => r in per && per[r].verdict != NoVerdict);
    AscendingLast(wv, r);
  }

  lemma {:induction false} CountAfter(rounds: set<int>, last: int)
    ensures |Filter(SortedInts(rounds), r => r > last)| == |set r | r in rounds && r > last|
  {
    var f := Filter(SortedInts(rounds), r => r > last);
    FilterAscends(SortedInts(rounds), r => r > last);
    AscendingLength(f);
    assert Elems(f) == set r | r in rounds && r > last;
  }

  /** What the stale count is: the rounds after the last verdict, none of which has one. */
  lemma {:induction false} StaleRoundsHaveNoVerdict(name: string, per: Rows)
    ensures var st := StateOf(name, per);
            && (st.lastVerdictRound.None? ==> st.staleRounds == 0 && forall r | r in per :: per[r].verdict == NoVerdict)
            && (st.lastVerdictRound.Some? ==>
                  && st.staleRounds == |set r | r in per.Keys && r > st.lastVerdictRound.value|
                  && forall r | r in per && r > st.lastVerdictRound.value :: per[r].verdict == NoVerdict)
  {
    forall r | r in per && per[r].verdict != NoVerdict
      ensures StateOf(name, per).lastVerdictRound.Some? && r <= StateOf(name, per).lastVerdictRound.value
    {
      LastIsLatest(name, per, r);
    }
    var last := Last(WithVerdict(per));
    if last.Some? { CountAfter(per.Keys, last.value); }
  }

  lemma {:induction false} AscendingLength(s: seq<int>)
    requires Ascending(s, IntLess)
    ensures |Elems(s)| == |s|
  {
    if s == [] {
      assert Elems(s) == {};
    } else {
      var n := |s| - 1;
      forall i, j | 0 <= i < j < n ensures IntLess(s[..n][i], s[..n][j]) { InOrder(s, IntLess, i, j); }
      AscendingLength(s[..n]);
      TakeAll(s);
      ElemsStep(s, n);
      forall k | 0 <= k < n ensures s[k] != s[n] {
        InOrder(s, IntLess, k, n);
      }
    }
  }

  // ------------------------------------------------------------------ what the report says

  lemma {:induction false} RecentClosesNoMore(wv: seq<int>, red: set<int>, window: nat)
    ensures var recent := Recent(wv, window);
            |Closed(Episodes(recent, red * Elems(recent)))| <= |Closed(Episodes(wv, red))|
  {
    var k := if window == 0 || window >= |wv| then 0 else |wv| - window;
    assert wv[0..] == wv;
    WindowClosesNoMore(wv, red, k);
  }

  /** A record's age and opening round are those of the node's open episode, every earlier episode
      has closed, and a window counts no more of those than the whole history does. */
  ghost predicate IsOpenEpisode(r: Record, eps: seq<Episode>) {
    && eps != [] && eps[|eps| - 1].close.None? && |eps[|eps| - 1].rounds| == r.age > 0
    && r.firstRedRound == Some(eps[|eps| - 1].open)
    && r.priorEpisodes <= r.priorEpisodesAll == |eps| - 1
    && (forall k | 0 <= k < |eps| - 1 :: eps[k].close.Some?)
    && (r.lastClosedRound == if |eps| == 1 then None else eps[|eps| - 2].close)
  }

  lemma {:induction false} LatestIsRed(wv: seq<int>, red: set<int>)
    requires wv != [] && wv[|wv| - 1] in red
    ensures Episodes(wv, red) != []
    ensures var eps := Episodes(wv, red);
            && Closed(eps) == eps[..|eps| - 1] && eps[|eps| - 1].close.None?
            && (forall k | 0 <= k < |eps| - 1 :: eps[k].close.Some?)
  {
    WalkAgreesWithEpisodes(wv, red);
    ClosedOfWalk(wv, red);
    ClosedHaveEnd(wv, red);
    var w := WalkOver(wv, red);
    assert Episodes(wv, red)[..|w.closed|] == w.closed;
  }

  lemma {:induction false} RecordFromEpisodes(st: State, node: string, wv: seq<int>, red: set<int>,
      tracks: map<int, string>, owner: string -> Option<string>, window: nat, eps: seq<Episode>)
    requires wv != [] && wv[|wv| - 1] in red && eps == Episodes(wv, red)
    ensures IsOpenEpisode(RecordFrom(st, node, wv, red, tracks, owner, window), eps)
  {
    LatestIsRed(wv, red);
    WalkAgreesWithEpisodes(wv, red);
    RecentClosesNoMore(wv, red, window);
    ComposeIsOpen(st, node, wv, Trailing(wv, red), eps,
                  Closed(Episodes(Recent(wv, window), red * Elems(Recent(wv, window)))),
                  |Recent(wv, window)|, tracks, owner);
  }

  lemma {:induction false} ComposeIsOpen(st: State, node: string, wv: seq<int>, age: nat, eps: seq<Episode>,
      priorWin: seq<Episode>, window: nat, tracks: map<int, string>, owner: string -> Option<string>)
    requires 0 < age <= |wv| && eps != []
    requires eps[|eps| - 1].close.None? && eps[|eps| - 1].open == wv[|wv| - age] && |eps[|eps| - 1].rounds| == age
    requires (forall k | 0 <= k < |eps| - 1 :: eps[k].close.Some?) && |priorWin| <= |eps| - 1
    ensures var first := Some(wv[|wv| - age]);
            IsOpenEpisode(Compose(st, node, first, age, eps[..|eps| - 1], priorWin, window, tracks, owner), eps)
  {
  }

  lemma {:induction false} RecordIsOpenEpisode(name: string, per: Rows, node: string, tracks: map<int, string>,
      owner: string -> Option<string>, window: nat)
    requires StateOf(name, per).verdict == Some(Red) && node in StateOf(name, per).redNodes
    ensures var wv := WithVerdict(per);
            IsOpenEpisode(RecordOf(StateOf(name, per), node, per, tracks, owner, window),
                          Episodes(wv, RedRounds(node, wv, per)))
  {
    var wv := WithVerdict(per);
    assert wv[|wv| - 1] in wv;
    var red := RedRounds(node, wv, per);
    RecordFromEpisodes(StateOf(name, per), node, wv, red, tracks, owner, window, Episodes(wv, red));
  }

  lemma {:induction false} InMap(nodes: seq<string>, f: string -> Record, r: Record)
    ensures r in Map(nodes, f) <==> exists n :: n in nodes && r == f(n)
  {
    if nodes != [] {
      var n := |nodes| - 1;
      InMap(nodes[..n], f, r);
      assert nodes == nodes[..n] + [nodes[n]];
    }
  }

  /** The record `r` is the one `c` owes for its node, which is red now. */
  ghost predicate Owes(c: Check, per: Rows, tracks: map<int, string>, owner: string -> Option<string>, window: nat,
      r: Record)
  {
    var st := StateOf(c.name, per);
    st.verdict == Some(Red) && r.node in st.redNodes && r == RecordOf(st, r.node, per, tracks, owner, window)
  }

  /** The report holds exactly the nodes red in their check's latest verdict. */
  lemma {:induction false} DebtIsWhatIsRedNow(checks: seq<Check>, rows: map<string, Rows>, tracks: map<int, string>,
      owner: string -> Option<string>, window: nat, r: Record)
    ensures r in DebtOf(checks, rows, tracks, owner, window)
       <==> exists c :: c in checks && Owes(c, RowsOf(rows, c.prefix), tracks, owner, window, r)
  {
    var of := (c: Check) => RecordsOf(c, RowsOf(rows, c.prefix), tracks, owner, window);
    var all := FlatMap(checks, of);
    ArrangeIsPermutation(all, Before);
    SameElements(Arrange(all, Before), all, r);
    InFlatMap(checks, of, r);
    forall c: Check ensures r in of(c) <==> Owes(c, RowsOf(rows, c.prefix), tracks, owner, window, r) {
      OwesWhenListed(c, RowsOf(rows, c.prefix), tracks, owner, window, r);
    }
  }

  lemma {:induction false} SameElements(a: seq<Record>, b: seq<Record>, r: Record)
    requires multiset(a) == multiset(b)
    ensures r in a <==> r in b
  {
    assert r in multiset(a) <==> r in multiset(b);
  }

  lemma {:induction false} OwesWhenListed(c: Check, per: Rows, tracks: map<int, string>,
      owner: string -> Option<string>, window: nat, r: Record)
    ensures r in RecordsOf(c, per, tracks, owner, window) <==> Owes(c, per, tracks, owner, window, r)
  {
    var st := StateOf(c.name, per);
    var f := (node: string) => RecordOf(st, node, per, tracks, owner, window);
    InMap(st.redNodes, f, r);
  }

  // ------------------------------------------------------------------ the report, read off the rows

  ghost predicate HasVerdict(per: Rows, q: int) {
    q in per && per[q].verdict != NoVerdict
  }

  ghost predicate IsLatestVerdict(per: Rows, q: int) {
    HasVerdict(per, q) && forall p | HasVerdict(per, p) :: p <= q
  }

  /** The check's latest verdict is red, and lists the node. */
  ghost predicate RedNow(per: Rows, node: string) {
    exists q :: IsLatestVerdict(per, q) && per[q].verdict == Red && node in per[q].nodes
  }

  /** The node is in every verdict from round `first` on, and not in the one before it. */
  ghost predicate RedSince(per: Rows, node: string, first: int) {
    && HasVerdict(per, first)
    && (forall q | HasVerdict(per, q) && first <= q :: node in per[q].nodes)
    && (forall q | IsLatestVerdict(Until(per, first), q) :: node !in per[q].nodes)
  }

  /** The rounds before a round. */
  function Until(per: Rows, r: int): Rows {
    map q | q in per && q < r :: per[q]
  }

  lemma {:induction false} LatestIsLast(name: string, per: Rows, q: int)
    requires IsLatestVerdict(per, q)
    ensures WithVerdict(per) != [] && WithVerdict(per)[|WithVerdict(per)| - 1] == q
  {
    var wv := WithVerdict(per);
    assert q in wv && HasVerdict(per, q);
    LastIsLatest(name, per, q);
    assert wv[|wv| - 1] in wv;
    assert HasVerdict(per, wv[|wv| - 1]);
  }

  /** The state of a check: how many logs it has, its latest log, its latest verdict, and all the nodes that
      verdict lists, in order. */
  lemma {:induction false} StateSays(name: string, per: Rows, q: int)
    requires IsLatestVerdict(per, q)
    ensures var st := StateOf(name, per);
            && st.check == name && st.nLogs == |per| && st.lastLogRound.Some? && st.lastLogRound.value in per
            && (forall p | p in per :: p <= st.lastLogRound.value)
            && st.lastVerdictRound == Some(q) && st.verdict == Some(per[q].verdict)
            && (forall n :: n in st.redNodes <==> n in per[q].nodes) && Ascending(st.redNodes, Less)
  {
    LatestIsLast(name, per, q);
    LastLog(per.Keys, q);
    assert |per.Keys| == |per|;
  }

  lemma {:induction false} LastLog(rounds: set<int>, q: int)
    requires q in rounds
    ensures var last := Last(SortedInts(rounds));
            last.Some? && last.value in rounds && forall p | p in rounds :: p <= last.value
  {
    var ordered := SortedInts(rounds);
    assert q in ordered && ordered[|ordered| - 1] in ordered;
    forall p | p in rounds ensures p <= ordered[|ordered| - 1] { AscendingLast(ordered, p); }
  }

  /** A check that has never had a verdict has none, and nothing is red in it. */
  lemma {:induction false} StateWithoutVerdict(name: string, per: Rows)
    requires forall q :: !HasVerdict(per, q)
    ensures var st := StateOf(name, per); st.lastVerdictRound == None && st.verdict == None && st.redNodes == []
  {
    var wv := WithVerdict(per);
    forall q ensures q !in wv {
      assert !HasVerdict(per, q);
    }
    EmptyOrNot(wv);
  }

  lemma {:induction false} SomeLatest(per: Rows) returns (q: int)
    requires WithVerdict(per) != []
    ensures IsLatestVerdict(per, q)
  {
    var wv := WithVerdict(per);
    q := wv[|wv| - 1];
    assert q in wv;
    forall p | HasVerdict(per, p) ensures p <= q { LastIsLatest("", per, p); }
  }

  lemma {:induction false} RedNowIsListed(name: string, per: Rows, node: string)
    ensures RedNow(per, node) <==> StateOf(name, per).verdict == Some(Red) && node in StateOf(name, per).redNodes
  {
    if WithVerdict(per) == [] {
      forall q ensures !HasVerdict(per, q) {
        assert HasVerdict(per, q) ==> q in WithVerdict(per);
      }
      StateWithoutVerdict(name, per);
    } else {
      var q := SomeLatest(per);
      StateSays(name, per, q);
      forall p | IsLatestVerdict(per, p) ensures p == q {
        assert HasVerdict(per, p) && HasVerdict(per, q);
      }
    }
  }

  lemma {:induction false} RecordNames(st: State, node: string, per: Rows, tracks: map<int, string>,
      owner: string -> Option<string>, window: nat)
    ensures var r := RecordOf(st, node, per, tracks, owner, window); r.check == st.check && r.node == node
  {
  }

  lemma {:induction false} InRecords(st: State, per: Rows, tracks: map<int, string>, owner: string -> Option<string>,
      window: nat, r: Record)
    ensures r in RecordsIn(st, per, tracks, owner, window)
       <==> && st.verdict == Some(Red) && r.check == st.check && r.node in st.redNodes
            && r == RecordOf(st, r.node, per, tracks, owner, window)
  {
    var f := (node: string) => RecordOf(st, node, per, tracks, owner, window);
    InMap(st.redNodes, f, r);
    RecordNames(st, r.node, per, tracks, owner, window);
    if n :| n in st.redNodes && r == f(n) { RecordNames(st, n, per, tracks, owner, window); }
  }

  /** One check's records are of the nodes that are red in it now. */
  lemma {:induction false} RecordsList(c: Check, per: Rows, tracks: map<int, string>,
      owner: string -> Option<string>, window: nat, node: string)
    ensures (exists r :: r in RecordsOf(c, per, tracks, owner, window) && r.node == node) <==> RedNow(per, node)
  {
    var st := StateOf(c.name, per);
    RedNowIsListed(c.name, per, node);
    if r :| r in RecordsIn(st, per, tracks, owner, window) && r.node == node {
      InRecords(st, per, tracks, owner, window, r);
    }
    if RedNow(per, node) {
      var r := RecordOf(st, node, per, tracks, owner, window);
      RecordNames(st, node, per, tracks, owner, window);
      InRecords(st, per, tracks, owner, window, r);
    }
  }

  lemma {:induction false} RecordsAreOf(c: Check, per: Rows, tracks: map<int, string>,
      owner: string -> Option<string>, window: nat, r: Record)
    requires r in RecordsOf(c, per, tracks, owner, window)
    ensures r.check == c.name
  {
    InRecords(StateOf(c.name, per), per, tracks, owner, window, r);
  }

  lemma {:induction false} InDebt(checks: seq<Check>, rows: map<string, Rows>, tracks: map<int, string>,
      owner: string -> Option<string>, window: nat, r: Record)
    ensures r in DebtOf(checks, rows, tracks, owner, window)
       <==> exists c :: c in checks && r in RecordsOf(c, RowsOf(rows, c.prefix), tracks, owner, window)
  {
    var of := (c: Check) => RecordsOf(c, RowsOf(rows, c.prefix), tracks, owner, window);
    var all := FlatMap(checks, of);
    ArrangeIsPermutation(all, Before);
    SameElements(Arrange(all, Before), all, r);
    InFlatMap(checks, of, r);
  }

  /** The report has a record of a check and a node exactly when the check's latest verdict is red and lists
      the node. */
  lemma {:induction false} DebtLists(checks: seq<Check>, rows: map<string, Rows>, tracks: map<int, string>,
      owner: string -> Option<string>, window: nat, name: string, node: string)
    ensures (exists r :: r in DebtOf(checks, rows, tracks, owner, window) && r.check == name && r.node == node)
       <==> exists c :: c in checks && c.name == name && c.prefix in rows && RedNow(rows[c.prefix], node)
  {
    if r :| r in DebtOf(checks, rows, tracks, owner, window) && r.check == name && r.node == node {
      InDebt(checks, rows, tracks, owner, window, r);
      var c :| c in checks && r in RecordsOf(c, RowsOf(rows, c.prefix), tracks, owner, window);
      RecordsAreOf(c, RowsOf(rows, c.prefix), tracks, owner, window, r);
      RecordsList(c, RowsOf(rows, c.prefix), tracks, owner, window, node);
    }
    if c :| c in checks && c.name == name && c.prefix in rows && RedNow(rows[c.prefix], node) {
      RecordsList(c, RowsOf(rows, c.prefix), tracks, owner, window, node);
      var r :| r in RecordsOf(c, RowsOf(rows, c.prefix), tracks, owner, window) && r.node == node;
      RecordsAreOf(c, RowsOf(rows, c.prefix), tracks, owner, window, r);
      InDebt(checks, rows, tracks, owner, window, r);
    }
  }

  /** How many rounds have a verdict from `first` on. */
  function VerdictsFrom(per: Rows, first: int): set<int> {
    set q | q in per && per[q].verdict != NoVerdict && q >= first
  }

  lemma {:induction false} VerdictsAscend(per: Rows)
    ensures Ascending(WithVerdict(per), IntLess)
  {
    FilterAscends(SortedInts(per.Keys), r => r in per && per[r].verdict != NoVerdict);
  }

  /** In an ascending list, what is at or after the `k`-th element is what is no smaller. */
  lemma {:induction false} FromPlace(wv: seq<int>, k: nat, q: int)
    requires Ascending(wv, IntLess) && k < |wv|
    ensures q in wv[k..] <==> q in wv && q >= wv[k]
  {
    if q in wv[k..] {
      var i :| 0 <= i < |wv| - k && wv[k..][i] == q;
      assert wv[k + i] == q;
      InOrder(wv, IntLess, k, k + i);
    }
    if q in wv && q >= wv[k] {
      var i :| 0 <= i < |wv| && wv[i] == q;
      InOrder(wv, IntLess, i, k);
      assert wv[k..][i - k] == q;
    }
  }

  /** The last `age` verdict rounds are those from the `age`-th last on. */
  lemma {:induction false} LastVerdicts(per: Rows, age: nat)
    requires 0 < age <= |WithVerdict(per)|
    ensures var wv := WithVerdict(per); |VerdictsFrom(per, wv[|wv| - age])| == age
  {
    var wv := WithVerdict(per);
    var k := |wv| - age;
    var last := wv[k..];
    VerdictsAscend(per);
    forall q ensures q in VerdictsFrom(per, wv[k]) <==> q in last {
      FromPlace(wv, k, q);
    }
    SuffixAscends(wv, k);
    AscendingLength(last);
    assert Elems(last) == VerdictsFrom(per, wv[k]);
  }

  lemma {:induction false} SuffixAscends(wv: seq<int>, k: nat)
    requires Ascending(wv, IntLess) && k <= |wv|
    ensures Ascending(wv[k..], IntLess)
  {
    forall i, j | 0 <= i < j < |wv| - k ensures IntLess(wv[k..][i], wv[k..][j]) {
      InOrder(wv, IntLess, k + i, k + j);
    }
  }

  /** In an ascending list, the largest element below the `k`-th is the one before it. */
  lemma {:induction false} JustBefore(wv: seq<int>, k: nat, q: int)
    requires Ascending(wv, IntLess) && k < |wv| && q in wv && q < wv[k]
    requires forall p | p in wv && p < wv[k] :: p <= q
    ensures k > 0 && wv[k - 1] == q
  {
    var i :| 0 <= i < |wv| && wv[i] == q;
    InOrder(wv, IntLess, k, i);
    InOrder(wv, IntLess, i, k - 1);
    InOrder(wv, IntLess, k - 1, k);
    assert wv[k - 1] in wv;
  }

  /** The node is in the rounds of the trailing run and not in the one before: in a list of the rounds. */
  lemma {:induction false} RunInList(wv: seq<int>, red: set<int>, k: nat, q: int)
    requires Ascending(wv, IntLess) && k < |wv| && k == |wv| - Trailing(wv, red)
    ensures q in wv && q >= wv[k] ==> q in red
    ensures q in wv && q < wv[k] && (forall p | p in wv && p < wv[k] :: p <= q) ==> q !in red
  {
    TrailingIsRed(wv, red);
    if q in wv && q >= wv[k] {
      FromPlace(wv, k, q);
      var i :| 0 <= i < |wv| - k && wv[k..][i] == q;
      assert wv[k + i] in red;
    } else if q in wv && q < wv[k] && forall p | p in wv && p < wv[k] :: p <= q {
      JustBefore(wv, k, q);
    }
  }

  lemma {:induction false} RedSinceIs(per: Rows, node: string, age: nat)
    requires 0 < age == Trailing(WithVerdict(per), RedRounds(node, WithVerdict(per), per)) <= |WithVerdict(per)|
    ensures RedSince(per, node, WithVerdict(per)[|WithVerdict(per)| - age])
  {
    var wv := WithVerdict(per);
    var k, red := |wv| - age, RedRounds(node, wv, per);
    var first := wv[k];
    VerdictsAscend(per);
    assert first in wv;
    forall q | HasVerdict(per, q) && first <= q ensures node in per[q].nodes {
      RunInList(wv, red, k, q);
    }
    forall q | IsLatestVerdict(Until(per, first), q) ensures node !in per[q].nodes {
      LatestUntil(per, first, q);
      RunInList(wv, red, k, q);
    }
  }

  lemma {:induction false} LatestUntil(per: Rows, first: int, q: int)
    requires IsLatestVerdict(Until(per, first), q)
    ensures q in per && q in WithVerdict(per) && q < first
    ensures forall p | p in WithVerdict(per) && p < first :: p <= q
  {
    assert HasVerdict(Until(per, first), q);
    forall p | p in WithVerdict(per) && p < first ensures p <= q {
      assert HasVerdict(Until(per, first), p);
    }
  }

  /** The fields a record derives from when the episode opened and how many verdicts it has lasted. */
  ghost predicate Derived(r: Record, first: int, age: nat, tracks: map<int, string>, owner: string -> Option<string>) {
    && r.owner == owner(r.node) && r.firstRedRound == Some(first) && r.age == age
    && r.opener == (if first in tracks then Some(tracks[first]) else None)
    && (r.invisibleOpen <==> && r.opener.Some? && r.opener.value != "" && r.owner.Some? && r.owner.value != ""
                             && r.opener != r.owner)
    && (r.recurrent <==> r.priorEpisodes > 0) && (r.overdue <==> r.age >= 6)
  }

  lemma {:induction false} ComposeDerives(st: State, node: string, first: int, age: nat, priorAll: seq<Episode>,
      priorWin: seq<Episode>, window: nat, tracks: map<int, string>, owner: string -> Option<string>)
    ensures var r := Compose(st, node, Some(first), age, priorAll, priorWin, window, tracks, owner);
            && r.check == st.check && r.node == node && Derived(r, first, age, tracks, owner)
            && r.window == window && r.staleRounds == st.staleRounds && r.priorEpisodes == |priorWin|
  {
  }

  lemma {:induction false} RecordDerives(st: State, node: string, wv: seq<int>, red: set<int>, tracks: map<int, string>,
      owner: string -> Option<string>, window: nat, age: nat)
    requires 0 < age == Trailing(wv, red) <= |wv|
    ensures var r := RecordFrom(st, node, wv, red, tracks, owner, window);
            r.check == st.check && r.node == node && Derived(r, wv[|wv| - age], age, tracks, owner)
  {
    var recent := Recent(wv, window);
    ComposeDerives(st, node, wv[|wv| - age], age, Closed(Episodes(wv, red)),
                   Closed(Episodes(recent, red * Elems(recent))), |recent|, tracks, owner);
  }

  lemma {:induction false} RecordAged(st: State, per: Rows, node: string, tracks: map<int, string>,
      owner: string -> Option<string>, window: nat, wv: seq<int>, red: set<int>, age: nat)
    requires wv == WithVerdict(per) && red == RedRounds(node, wv, per) && 0 < age == Trailing(wv, red) <= |wv|
    ensures var r := RecordOf(st, node, per, tracks, owner, window);
            r.check == st.check && r.node == node && Derived(r, wv[|wv| - age], age, tracks, owner)
  {
    RecordDerives(st, node, wv, red, tracks, owner, window, age);
    assert RecordOf(st, node, per, tracks, owner, window) == RecordFrom(st, node, wv, red, tracks, owner, window);
  }

  lemma {:induction false} SinceWhen(per: Rows, node: string) returns (wv: seq<int>, red: set<int>, age: nat)
    requires RedNow(per, node)
    ensures wv == WithVerdict(per) && red == RedRounds(node, wv, per) && 0 < age == Trailing(wv, red) <= |wv|
    ensures RedSince(per, node, wv[|wv| - age]) && |VerdictsFrom(per, wv[|wv| - age])| == age
  {
    wv, red := WithVerdict(per), RedRounds(node, WithVerdict(per), per);
    age := TrailingAge(per, node);
    RedSinceIs(per, node, age);
    LastVerdicts(per, age);
  }

  /** What a record says of a node that is red now: since when and in how many verdicts, who ran when it
      opened and who owns the suite, whether that hides it, and whether it is recurrent or overdue. */
  lemma {:induction false} RecordSays(st: State, per: Rows, node: string, tracks: map<int, string>,
      owner: string -> Option<string>, window: nat) returns (first: int, age: nat)
    requires RedNow(per, node)
    ensures RedSince(per, node, first) && age == |VerdictsFrom(per, first)|
    ensures var r := RecordOf(st, node, per, tracks, owner, window);
            r.check == st.check && r.node == node && Derived(r, first, age, tracks, owner)
  {
    var wv, red;
    wv, red, age := SinceWhen(per, node);
    first := wv[|wv| - age];
    RecordAged(st, per, node, tracks, owner, window, wv, red, age);
  }

  lemma {:induction false} TrailingAge(per: Rows, node: string) returns (age: nat)
    requires RedNow(per, node)
    ensures 0 < age == Trailing(WithVerdict(per), RedRounds(node, WithVerdict(per), per)) <= |WithVerdict(per)|
  {
    var q :| IsLatestVerdict(per, q) && per[q].verdict == Red && node in per[q].nodes;
    LatestIsLast("", per, q);
    var wv := WithVerdict(per);
    var red := RedRounds(node, wv, per);
    assert wv[|wv| - 1] == q && q in wv && q in red;
    age := Trailing(wv, red);
    TrailingIsRed(wv, red);
  }

  /** The last verdicts of the window: all of them when it is 0 or more than there are. */
  function InWindow(wv: seq<int>, window: nat): seq<int> {
    wv[|wv| - (if window == 0 || window >= |wv| then |wv| else window)..]
  }

  lemma {:induction false} RecentIsWindow(wv: seq<int>, window: nat)
    ensures Recent(wv, window) == InWindow(wv, window)
  {
    assert wv[0..] == wv;
  }

  /** A record counts as prior the episodes that opened and closed within the window. */
  lemma {:induction false} WindowSays(st: State, per: Rows, node: string, tracks: map<int, string>,
      owner: string -> Option<string>, window: nat) returns (recent: seq<int>, red: set<int>)
    ensures recent == InWindow(WithVerdict(per), window) && red == RedRounds(node, recent, per)
    ensures var r := RecordOf(st, node, per, tracks, owner, window);
            && r.window == |recent| && r.staleRounds == st.staleRounds
            && r.priorEpisodes == |Closed(Episodes(recent, red))|
  {
    var wv, redAll;
    wv, redAll, recent, red := WindowParts(per, node, window);
    CountsWithin(st, node, per, tracks, owner, window, wv, redAll, recent, red);
  }

  lemma {:induction false} WindowParts(per: Rows, node: string, window: nat)
    returns (wv: seq<int>, redAll: set<int>, recent: seq<int>, red: set<int>)
    ensures wv == WithVerdict(per) && redAll == RedRounds(node, wv, per)
    ensures recent == InWindow(wv, window) == Recent(wv, window) && red == RedRounds(node, recent, per)
    ensures red == redAll * Elems(recent)
  {
    wv, redAll := WithVerdict(per), RedRounds(node, WithVerdict(per), per);
    recent, red := InWindow(wv, window), RedRounds(node, InWindow(wv, window), per);
    RecentIsWindow(wv, window);
    RedInWindow(node, wv, |wv| - |recent|, per);
  }

  lemma {:induction false} CountsWithin(st: State, node: string, per: Rows, tracks: map<int, string>,
      owner: string -> Option<string>, window: nat, wv: seq<int>, redAll: set<int>, recent: seq<int>, red: set<int>)
    requires wv == WithVerdict(per) && redAll == RedRounds(node, wv, per)
    requires recent == Recent(wv, window) && red == redAll * Elems(recent)
    ensures var r := RecordOf(st, node, per, tracks, owner, window);
            && r.window == |recent| && r.staleRounds == st.staleRounds
            && r.priorEpisodes == |Closed(Episodes(recent, red))|
  {
    RecordCounts(st, node, wv, redAll, tracks, owner, window);
    assert RecordOf(st, node, per, tracks, owner, window) == RecordFrom(st, node, wv, redAll, tracks, owner, window);
  }

  lemma {:induction false} RecordCounts(st: State, node: string, wv: seq<int>, red: set<int>, tracks: map<int, string>,
      owner: string -> Option<string>, window: nat)
    ensures var r, recent := RecordFrom(st, node, wv, red, tracks, owner, window), Recent(wv, window);
            && r.window == |recent| && r.staleRounds == st.staleRounds
            && r.priorEpisodes == |Closed(Episodes(recent, red * Elems(recent)))|
  {
  }

  lemma {:induction false} RedInWindow(node: string, wv: seq<int>, k: nat, per: Rows)
    requires k <= |wv|
    ensures RedRounds(node, wv, per) * Elems(wv[k..]) == RedRounds(node, wv[k..], per)
  {
    var recent := wv[k..];
    forall q ensures q in RedRounds(node, wv, per) * Elems(recent) <==> q in RedRounds(node, recent, per) {
      assert q in recent ==> q in wv;
    }
  }

  ghost predicate DistinctNames(checks: seq<Check>) {
    forall i, j | 0 <= i < j < |checks| :: checks[i].name != checks[j].name
  }

  /** No two records of a list are about the same check and node. */
  ghost predicate OneEach(records: seq<Record>) {
    forall i, j | 0 <= i < j < |records| :: records[i].check != records[j].check || records[i].node != records[j].node
  }

  lemma {:induction false} RecordsOneEach(c: Check, per: Rows, tracks: map<int, string>,
      owner: string -> Option<string>, window: nat)
    ensures OneEach(RecordsOf(c, per, tracks, owner, window))
    ensures forall r | r in RecordsOf(c, per, tracks, owner, window) :: r.check == c.name
  {
    var st := StateOf(c.name, per);
    var records := RecordsOf(c, per, tracks, owner, window);
    if st.verdict == Some(Red) {
      var f := (node: string) => RecordOf(st, node, per, tracks, owner, window);
      forall i | 0 <= i < |records| ensures records[i] == f(st.redNodes[i]) {
        MapAt(st.redNodes, f, i);
      }
      NodesAscend(c.name, per);
      forall i, j | 0 <= i < j < |records| ensures records[i].node != records[j].node {
        InOrder(st.redNodes, Less, i, j);
        LessTrichotomy(st.redNodes[i], st.redNodes[i]);
      }
    }
  }

  lemma {:induction false} NodesAscend(name: string, per: Rows)
    ensures Ascending(StateOf(name, per).redNodes, Less)
  {
    if WithVerdict(per) != [] {
      var q := SomeLatest(per);
      StateSays(name, per, q);
    }
  }

  lemma {:induction false} MapAt(nodes: seq<string>, f: string -> Record, i: nat)
    requires i < |nodes|
    ensures Map(nodes, f)[i] == f(nodes[i])
  {
    if i < |nodes| - 1 { MapAt(nodes[..|nodes| - 1], f, i); }
  }

  lemma {:induction false} AllOneEach(checks: seq<Check>, rows: map<string, Rows>, tracks: map<int, string>,
      owner: string -> Option<string>, window: nat)
    requires DistinctNames(checks)
    ensures var all := FlatMap(checks, (c: Check) => RecordsOf(c, RowsOf(rows, c.prefix), tracks, owner, window));
            OneEach(all) && forall r | r in all :: exists c :: c in checks && c.name == r.check
  {
    if checks != [] {
      var n := |checks| - 1;
      var of := (c: Check) => RecordsOf(c, RowsOf(rows, c.prefix), tracks, owner, window);
      AllOneEach(checks[..n], rows, tracks, owner, window);
      RecordsOneEach(checks[n], RowsOf(rows, checks[n].prefix), tracks, owner, window);
      JoinOneEach(FlatMap(checks[..n], of), of(checks[n]), checks);
    }
  }

  lemma {:induction false} JoinOneEach(a: seq<Record>, b: seq<Record>, checks: seq<Check>)
    requires checks != [] && DistinctNames(checks) && OneEach(a) && OneEach(b)
    requires forall r | r in a :: exists c :: c in checks[..|checks| - 1] && c.name == r.check
    requires forall r | r in b :: r.check == checks[|checks| - 1].name
    ensures OneEach(a + b) && forall r | r in a + b :: exists c :: c in checks && c.name == r.check
  {
    var all, n := a + b, |checks| - 1;
    forall i, j | 0 <= i < j < |all| ensures all[i].check != all[j].check || all[i].node != all[j].node {
      if i < |a| <= j {
        assert all[i] in a && all[j] in b;
        var c :| c in checks[..n] && c.name == all[i].check;
        var k :| 0 <= k < n && checks[k] == c;
        assert checks[k].name != checks[n].name;
      }
    }
    assert checks == checks[..n] + [checks[n]] && checks[n] in checks;
  }

  lemma {:induction false} OneEachPermuted(a: seq<Record>, b: seq<Record>)
    requires multiset(a) == multiset(b) && OneEach(a)
    ensures OneEach(b)
  {
    forall i, j | 0 <= i < j < |b| ensures b[i].check != b[j].check || b[i].node != b[j].node {
      if b[i] == b[j] {
        TwicePresent(b, i, j);
        TwoPlaces(a, b[i]);
      } else {
        assert b[i] in multiset(b) && b[j] in multiset(b);
        assert b[i] in a && b[j] in a;
      }
    }
  }

  lemma {:induction false} TwicePresent(s: seq<Record>, i: nat, j: nat)
    requires i < j < |s| && s[i] == s[j]
    ensures multiset(s)[s[i]] >= 2
  {
    assert s == s[..j] + [s[j]] + s[j + 1..];
    assert s[..j][i] == s[i] && s[i] in s[..j];
    assert s[i] in multiset(s[..j]);
  }

  lemma {:induction false} TwoPlaces(s: seq<Record>, r: Record)
    requires OneEach(s)
    ensures multiset(s)[r] <= 1
  {
    if s != [] {
      var n := |s| - 1;
      TwoPlaces(s[..n], r);
      LastInMultiset(s);
      forall k | 0 <= k < n ensures s[..n][k] != s[n] {
        assert s[k].check != s[n].check || s[k].node != s[n].node;
      }
      assert s[n] !in multiset(s[..n]);
    }
  }

  /** And it has one record of each. */
  lemma {:induction false} DebtListsOnce(checks: seq<Check>, rows: map<string, Rows>, tracks: map<int, string>,
      owner: string -> Option<string>, window: nat)
    requires DistinctNames(checks)
    ensures OneEach(DebtOf(checks, rows, tracks, owner, window))
  {
    var all := FlatMap(checks, (c: Check) => RecordsOf(c, RowsOf(rows, c.prefix), tracks, owner, window));
    AllOneEach(checks, rows, tracks, owner, window);
    ArrangeIsPermutation(all, Before);
    OneEachPermuted(all, Arrange(all, Before));
  }

  lemma {:induction false} BeforeIsStrictWeak()
    ensures StrictWeak(Before)
  {
    forall x, y | Before(x, y) ensures !Before(y, x) {
      BeforeAsymmetric(x, y);
    }
    forall x, y, z | Before(x, z) ensures Before(x, y) || Before(y, z) {
      BeforeSplits(x, y, z);
    }
  }

  lemma {:induction false} BeforeAsymmetric(x: Record, y: Record)
    requires Before(x, y)
    ensures !Before(y, x)
  {
    LessAsymmetric(x.check, y.check);
    LessAsymmetric(x.node, y.node);
    LessTrichotomy(x.check, y.check);
  }

  lemma {:induction false} LessAsymmetric(a: string, b: string)
    ensures !(Less(a, b) && Less(b, a))
  {
    LessTrichotomy(a, b);
    if Less(a, b) && Less(b, a) { LessTransitive(a, b, a); }
  }

  lemma {:induction false} BeforeSplits(x: Record, y: Record, z: Record)
    requires Before(x, z)
    ensures Before(x, y) || Before(y, z)
  {
    if x.age == y.age == z.age {
      LessSplits(x.check, y.check, z.check);
      LessSplits(x.node, y.node, z.node);
      LessTrichotomy(x.check, y.check);
      LessTrichotomy(y.check, z.check);
    }
  }

  lemma {:induction false} LessSplits(a: string, b: string, c: string)
    ensures Less(a, c) ==> Less(a, b) || Less(b, c)
  {
    LessTrichotomy(a, b);
    if Less(b, a) && Less(a, c) { LessTransitive(b, a, c); }
  }

  /** The report reads oldest first, then by check, then by node. */
  lemma {:induction false} DebtIsArranged(checks: seq<Check>, rows: map<string, Rows>, tracks: map<int, string>,
      owner: string -> Option<string>, window: nat)
    ensures Arranged(DebtOf(checks, rows, tracks, owner, window), Before)
  {
    BeforeIsStrictWeak();
    ArrangeIsArranged(FlatMap(checks, (c: Check) => RecordsOf(c, RowsOf(rows, c.prefix), tracks, owner, window)),
                      Before);
  }

  /** In fields: of two records, the first is the older episode; of equal ages its check comes first by name, and
      of one check its node. */
  lemma {:induction false} OldestFirst(checks: seq<Check>, rows: map<string, Rows>, tracks: map<int, string>,
      owner: string -> Option<string>, window: nat, i: nat, j: nat)
    requires i < j < |DebtOf(checks, rows, tracks, owner, window)|
    ensures var a, b := DebtOf(checks, rows, tracks, owner, window)[i], DebtOf(checks, rows, tracks, owner, window)[j];
            && a.age >= b.age
            && (a.age == b.age ==> a.check == b.check || Less(a.check, b.check))
            && (a.age == b.age && a.check == b.check ==> a.node == b.node || Less(a.node, b.node))
  {
    var out := DebtOf(checks, rows, tracks, owner, window);
    DebtIsArranged(checks, rows, tracks, owner, window);
    assert !Before(out[j], out[i]);
    LessTrichotomy(out[i].check, out[j].check);
    LessTrichotomy(out[i].node, out[j].node);
  }

  /** What a log makes of a round: no verdict when the run was killed, otherwise green when it lists no node, and
      red with the nodes it lists. */
  lemma {:induction false} RowsSay(runs: Logs, blind: map<string, set<int>>, prefix: string, r: int)
    requires prefix in runs
    ensures prefix in AllRows(runs, blind)
    ensures var per, killed := AllRows(runs, blind)[prefix], prefix in blind && r in blind[prefix];
            && (r in per <==> r in runs[prefix])
            && (r in per ==>
                  && (per[r].verdict == NoVerdict <==> killed)
                  && (per[r].verdict == Green <==> !killed && runs[prefix][r] == {})
                  && (per[r].verdict == Red <==> !killed && runs[prefix][r] != {})
                  && per[r].nodes == (if killed then {} else runs[prefix][r]))
  {
  }
}
