/** nuc/fossil_ledger.py: what several captures say about each timer fire, and an append-only record of it. */
module FossilLedger {
  import opened Text
  import opened Seqs
  import opened Order

  /** What one row of a capture says; a pending fire is a refusal to say anything. */
  datatype Claim = Ran | Missed | Pending

  datatype Row = Row(fire: Option<string>, claim: Claim, evidence: string)

  datatype Capture = Capture(name: string, ok: bool, rows: seq<Row>)

  /** A row that counts, with the capture it comes from. */
  datatype Vote = Vote(fire: string, claim: Claim, capture: string, evidence: string)

  predicate Counts(r: Row) {
    r.claim != Pending && r.fire.Some?
  }

  function RowVotes(name: string, r: Row): seq<Vote> {
    if Counts(r) then [Vote(r.fire.value, r.claim, name, r.evidence)] else []
  }

  function CaptureVotes(c: Capture): seq<Vote> {
    if c.ok then FlatMap(c.rows, r => RowVotes(c.name, r)) else []
  }

  function Votes(captures: seq<Capture>): seq<Vote> {
    FlatMap(captures, CaptureVotes)
  }

  // ------------------------------------------------------------------ the lattice of what is known

  /** Nothing, one claim, or a contradiction. */
  datatype Known = Absent | Said(claim: Claim) | Disagree

  function Join(a: Known, b: Known): Known {
    if a == Absent then b else if b == Absent || a == b then a else Disagree
  }

  function Heard(votes: seq<Vote>, fire: string): set<Claim> {
    set v | v in votes && v.fire == fire :: v.claim
  }

  function KnownFrom(heard: set<Claim>): Known {
    if heard == {} then Absent
    else if heard == {Ran} then Said(Ran)
    else if heard == {Missed} then Said(Missed)
    else Disagree
  }

  /** What the captures together say about one fire. */
  function KnownAt(captures: seq<Capture>, fire: string): Known {
    KnownFrom(Heard(Votes(captures), fire))
  }

  lemma {:induction false} JoinIsSemilattice(a: Known, b: Known, c: Known)
    ensures Join(a, a) == a && Join(a, b) == Join(b, a)
    ensures Join(Join(a, b), c) == Join(a, Join(b, c))
  {
  }

  lemma {:induction false} KnownFromUnion(x: set<Claim>, y: set<Claim>)
    requires Pending !in x + y
    ensures KnownFrom(x + y) == Join(KnownFrom(x), KnownFrom(y))
  {
    OnlyTwoClaims(x);
    OnlyTwoClaims(y);
    OnlyTwoClaims(x + y);
  }

  lemma {:induction false} OnlyTwoClaims(x: set<Claim>)
    requires Pending !in x
    ensures x == {} || x == {Ran} || x == {Missed} || x == {Ran, Missed}
    ensures {Ran} != {Missed} && Missed in {Ran, Missed} && Ran in {Ran, Missed}
    ensures Ran in x <==> x == {Ran} || x == {Ran, Missed}
    ensures Missed in x <==> x == {Missed} || x == {Ran, Missed}
  {
    assert forall c | c in x :: c == Ran || c == Missed;
    assert Ran !in {Missed};
    if Ran in x {
      if Missed in x { assert x == {Ran, Missed}; } else { assert x == {Ran}; }
    } else if Missed in x {
      assert x == {Missed};
    } else {
      assert x == {};
    }
  }

  lemma {:induction false} FlatMapConcat<S, T>(a: seq<S>, b: seq<S>, f: S -> seq<T>)
    ensures FlatMap(a + b, f) == FlatMap(a, f) + FlatMap(b, f)
  {
    if b == [] {
      assert a + b == a;
    } else {
      assert (a + b)[..|a + b| - 1] == a + b[..|b| - 1];
      FlatMapConcat(a, b[..|b| - 1], f);
    }
  }

  lemma {:induction false} VotesCount(captures: seq<Capture>, v: Vote)
    requires v in Votes(captures)
    ensures v.claim != Pending
  {
    InFlatMap(captures, CaptureVotes, v);
    var c :| c in captures && v in CaptureVotes(c);
    InFlatMap(c.rows, r => RowVotes(c.name, r), v);
  }

  lemma {:induction false} NeverPending(captures: seq<Capture>, fire: string)
    ensures Pending !in Heard(Votes(captures), fire)
  {
    forall v | v in Votes(captures) ensures v.claim != Pending {
      VotesCount(captures, v);
    }
  }

  /** The union of two sets of captures knows the join of what each knows, fire by fire. */
  lemma {:induction false} UnionIsJoin(a: seq<Capture>, b: seq<Capture>, fire: string)
    ensures KnownAt(a + b, fire) == Join(KnownAt(a, fire), KnownAt(b, fire))
  {
    FlatMapConcat(a, b, CaptureVotes);
    NeverPending(a, fire);
    NeverPending(b, fire);
    assert Heard(Votes(a) + Votes(b), fire) == Heard(Votes(a), fire) + Heard(Votes(b), fire);
    KnownFromUnion(Heard(Votes(a), fire), Heard(Votes(b), fire));
  }

  /** So adding captures loses no fire, and can change a verdict only to a disagreement. */
  lemma {:induction false} AddingCapturesOnlyDisagrees(a: seq<Capture>, b: seq<Capture>, fire: string)
    ensures KnownAt(a, fire) != Absent ==> KnownAt(a + b, fire) == KnownAt(a, fire) || KnownAt(a + b, fire) == Disagree
  {
    UnionIsJoin(a, b, fire);
  }

  // ------------------------------------------------------------------ build

  /** Per fire, per claim, the captures that make it with their evidence. */
  type Table = map<string, map<Claim, seq<(string, string)>>>

  /** `votes[fire][claim].append(...)` on nested `defaultdict`s. */
  function Cast(table: Table, v: Vote): Table {
    var row := if v.fire in table then table[v.fire] else map[];
    var pairs := if v.claim in row then row[v.claim] else [];
    table[v.fire := row[v.claim := pairs + [(v.capture, v.evidence)]]]
  }

  function Tally(votes: seq<Vote>): Table {
    if votes == [] then map[] else Cast(Tally(votes[..|votes| - 1]), votes[|votes| - 1])
  }

  function PairsFor(votes: seq<Vote>, fire: string, claim: Claim): seq<(string, string)> {
    FlatMap(votes, (v: Vote) => if v.fire == fire && v.claim == claim then [(v.capture, v.evidence)] else [])
  }

  lemma {:induction false} TallyIs(votes: seq<Vote>, fire: string, claim: Claim)
    ensures fire in Tally(votes) <==> Heard(votes, fire) != {}
    ensures fire in Tally(votes) ==> (claim in Tally(votes)[fire] <==> claim in Heard(votes, fire))
    ensures fire in Tally(votes) && claim in Tally(votes)[fire]
            ==> Tally(votes)[fire][claim] == PairsFor(votes, fire, claim)
    ensures claim !in Heard(votes, fire) ==> PairsFor(votes, fire, claim) == []
  {
    if votes != [] {
      var n := |votes| - 1;
      TallyIs(votes[..n], fire, claim);
      HeardStep(votes, fire);
    }
  }

  lemma {:induction false} HeardStep(votes: seq<Vote>, fire: string)
    requires votes != []
    ensures var n := |votes| - 1;
            Heard(votes, fire) == Heard(votes[..n], fire) + if votes[n].fire == fire then {votes[n].claim} else {}
  {
    var n := |votes| - 1;
    assert votes == votes[..n] + [votes[n]] && votes[n] in votes;
  }

  datatype Day = Day(fire: string, verdict: string, captures: seq<string>, evidence: seq<string>,
                     claims: Option<map<Claim, seq<string>>>)

  function NameOf(k: Known): string {
    match k
    case Absent => ""
    case Said(Ran) => "fire_ran"
    case Said(Missed) => "fire_missed"
    case Said(Pending) => "fire_pending"
    case Disagree => "DISAGREE"
  }

  function Sources(votes: seq<Vote>, fire: string): set<string> {
    set v | v in votes && v.fire == fire :: v.capture
  }

  function Evidence(votes: seq<Vote>, fire: string): set<string> {
    set v | v in votes && v.fire == fire :: v.evidence
  }

  /** The captures that make a claim, sorted, one entry a row. */
  function Claimants(votes: seq<Vote>, fire: string, claim: Claim): seq<string> {
    CastClaimants(PairsFor(votes, fire, claim))
  }

  function DayOf(votes: seq<Vote>, fire: string): Day {
    var heard := Heard(votes, fire);
    Day(fire, NameOf(KnownFrom(heard)), Sorted(Sources(votes, fire)), Sorted(Evidence(votes, fire)),
        if |heard| == 1 then None else Some(map c | c in heard :: Claimants(votes, fire, c)))
  }

  function Fires(votes: seq<Vote>): set<string> {
    set v | v in votes :: v.fire
  }

  /** One day per fire that any capture scores, in order. */
  function Days(votes: seq<Vote>): seq<Day> {
    Map(Sorted(Fires(votes)), (fire: string) => DayOf(votes, fire))
  }

  function CastSources(cast: map<Claim, seq<(string, string)>>): set<string> {
    set c: Claim, p: (string, string) | c in cast && p in cast[c] :: p.0
  }

  function CastEvidence(cast: map<Claim, seq<(string, string)>>): set<string> {
    set c: Claim, p: (string, string) | c in cast && p in cast[c] :: p.1
  }

  lemma {:induction false} InPairs(votes: seq<Vote>, fire: string, claim: Claim, p: (string, string))
    ensures p in PairsFor(votes, fire, claim) <==> Vote(fire, claim, p.0, p.1) in votes
  {
    var f := (v: Vote) => if v.fire == fire && v.claim == claim then [(v.capture, v.evidence)] else [];
    InFlatMap(votes, f, p);
    if Vote(fire, claim, p.0, p.1) in votes {
      assert p in f(Vote(fire, claim, p.0, p.1));
    }
    if v :| v in votes && p in f(v) {
      assert v == Vote(fire, claim, p.0, p.1);
    }
  }

  lemma {:induction false} CastHas(votes: seq<Vote>, fire: string, c: Claim, p: (string, string))
    requires fire in Tally(votes)
    ensures var cast := Tally(votes)[fire]; c in cast && p in cast[c] <==> Vote(fire, c, p.0, p.1) in votes
  {
    TallyIs(votes, fire, c);
    InPairs(votes, fire, c, p);
  }

  lemma {:induction false} CastKeys(votes: seq<Vote>, fire: string)
    requires fire in Tally(votes)
    ensures Tally(votes)[fire].Keys == Heard(votes, fire)
  {
    forall c: Claim ensures c in Tally(votes)[fire] <==> c in Heard(votes, fire) {
      TallyIs(votes, fire, c);
    }
  }

  /** The two ways to collect a fire's captures agree. */
  lemma {:induction false} SourcesAgree(votes: seq<Vote>, fire: string)
    requires fire in Tally(votes)
    ensures CastSources(Tally(votes)[fire]) == Sources(votes, fire)
  {
    var cast := Tally(votes)[fire];
    forall x | x in CastSources(cast) ensures x in Sources(votes, fire) {
      var c: Claim, p: (string, string) :| c in cast && p in cast[c] && p.0 == x;
      CastHas(votes, fire, c, p);
      assert Vote(fire, c, p.0, p.1) in votes;
    }
    forall v | v in votes && v.fire == fire ensures v.capture in CastSources(cast) {
      CastHas(votes, fire, v.claim, (v.capture, v.evidence));
      assert (v.capture, v.evidence) in cast[v.claim];
    }
  }

  lemma {:induction false} EvidenceAgrees(votes: seq<Vote>, fire: string)
    requires fire in Tally(votes)
    ensures CastEvidence(Tally(votes)[fire]) == Evidence(votes, fire)
  {
    var cast := Tally(votes)[fire];
    forall x | x in CastEvidence(cast) ensures x in Evidence(votes, fire) {
      var c: Claim, p: (string, string) :| c in cast && p in cast[c] && p.1 == x;
      CastHas(votes, fire, c, p);
      assert Vote(fire, c, p.0, p.1) in votes;
    }
    forall v | v in votes && v.fire == fire ensures v.evidence in CastEvidence(cast) {
      CastHas(votes, fire, v.claim, (v.capture, v.evidence));
      assert (v.capture, v.evidence) in cast[v.claim];
    }
  }

  method BuildTable(captures: seq<Capture>) returns (table: Table)
    ensures table == Tally(Votes(captures))
  {
    table := map[];
    ghost var votes: seq<Vote> := [];
    for i := 0 to |captures|
      invariant votes == Votes(captures[..i]) && table == Tally(votes)
    {
      TakeStep(captures, i);
      table := AddCapture(captures[i], table, votes);
      votes := votes + CaptureVotes(captures[i]);
    }
    TakeAll(captures);
  }

  method AddCapture(c: Capture, before: Table, ghost votes: seq<Vote>) returns (table: Table)
    requires before == Tally(votes)
    ensures table == Tally(votes + CaptureVotes(c))
  {
    table := before;
    if !c.ok {
      assert votes + [] == votes;
      return;
    }
    ghost var rowVotes := r => RowVotes(c.name, r);
    assert votes + FlatMap(c.rows[..0], rowVotes) == votes;
    for j := 0 to |c.rows|
      invariant table == Tally(votes + FlatMap(c.rows[..j], rowVotes))
    {
      TakeStep(c.rows, j);
      var r := c.rows[j];
      ghost var sofar := FlatMap(c.rows[..j], rowVotes);
      if r.claim == Pending || r.fire.None? {
        assert sofar + RowVotes(c.name, r) == sofar;
        continue;
      }
      var v := Vote(r.fire.value, r.claim, c.name, r.evidence);
      table := Cast(table, v);
      AppendAssoc(votes, sofar, v);
      assert (votes + sofar + [v])[..|votes + sofar|] == votes + sofar;
    }
    TakeAll(c.rows);
  }

  lemma {:induction false} ClaimsAgree(votes: seq<Vote>, fire: string)
    requires fire in Tally(votes)
    ensures var cast := Tally(votes)[fire];
            (map c | c in cast :: CastClaimants(cast[c]))
            == map c | c in Heard(votes, fire) :: Claimants(votes, fire, c)
  {
    var cast := Tally(votes)[fire];
    CastKeys(votes, fire);
    forall c | c in cast ensures CastClaimants(cast[c]) == Claimants(votes, fire, c) {
      TallyIs(votes, fire, c);
    }
  }

  function CastClaimants(pairs: seq<(string, string)>): seq<string> {
    Arrange(Map(pairs, (p: (string, string)) => p.0), Less)
  }

  /** A verdict is the one claim made, or a disagreement between the two. */
  lemma {:induction false} OneClaim(heard: set<Claim>, c: Claim)
    requires Pending !in heard && c in heard
    ensures KnownFrom(heard) == if |heard| == 1 then Said(c) else Disagree
  {
    OnlyTwoClaims(heard);
    if |heard| == 1 {
      assert |heard - {c}| == 0;
      assert heard == {c} + (heard - {c}) == {c};
    } else {
      assert heard != {c};
    }
  }

  method DayFor(table: Table, fire: string, ghost votes: seq<Vote>) returns (d: Day)
    requires table == Tally(votes) && fire in table && Pending !in Heard(votes, fire)
    ensures d == DayOf(votes, fire)
  {
    var cast := table[fire];
    CastKeys(votes, fire);
    SourcesAgree(votes, fire);
    EvidenceAgrees(votes, fire);
    TallyIs(votes, fire, Ran);
    var c :| c in cast;
    OneClaim(Heard(votes, fire), c);
    if |cast.Keys| == 1 {
      d := Day(fire, NameOf(Said(c)), Sorted(CastSources(cast)), Sorted(CastEvidence(cast)), None);
    } else {
      ClaimsAgree(votes, fire);
      d := Day(fire, NameOf(Disagree), Sorted(CastSources(cast)), Sorted(CastEvidence(cast)),
               Some(map k | k in cast :: CastClaimants(cast[k])));
    }
  }

  lemma {:induction false} TableFires(votes: seq<Vote>)
    ensures Tally(votes).Keys == Fires(votes)
  {
    forall fire: string ensures fire in Tally(votes) <==> fire in Fires(votes) {
      TallyIs(votes, fire, Ran);
      if fire in Fires(votes) {
        var v :| v in votes && v.fire == fire;
        assert v.claim in Heard(votes, fire);
      }
    }
  }

  /** `build`: the days of the union. */
  method Build(captures: seq<Capture>) returns (days: seq<Day>)
    ensures days == Days(Votes(captures))
  {
    var table := BuildTable(captures);
    ghost var votes := Votes(captures);
    TableFires(votes);
    var fires := Sorted(table.Keys);
    days := [];
    ghost var dayOf := (fire: string) => DayOf(votes, fire);
    for i := 0 to |fires|
      invariant days == Map(fires[..i], dayOf)
    {
      TakeStep(fires, i);
      NeverPending(captures, fires[i]);
      assert fires[i] in fires;
      var d := DayFor(table, fires[i], votes);
      days := days + [d];
    }
    TakeAll(fires);
  }


  // ------------------------------------------------------------------ what the build reports

  /** There is one day per fire anyone scores, in order, and it carries the joined verdict. */
  lemma {:induction false} DaysAre(captures: seq<Capture>, i: nat)
    requires i < |Days(Votes(captures))|
    ensures var days := Days(Votes(captures));
            && days[i].fire == Sorted(Fires(Votes(captures)))[i]
            && days[i].verdict == NameOf(KnownAt(captures, days[i].fire))
            && KnownAt(captures, days[i].fire) != Absent
  {
    var votes := Votes(captures);
    var fires := Sorted(Fires(votes));
    MapAt(fires, (fire: string) => DayOf(votes, fire), i);
    assert fires[i] in fires;
    Scored(captures, fires[i]);
  }

  /** Some usable capture scores the fire with that claim, in a row with that evidence. */
  ghost predicate Scores(captures: seq<Capture>, fire: string, claim: Claim, name: string, evidence: string) {
    && claim != Pending
    && exists c, r :: c in captures && c.ok && c.name == name && r in c.rows && r == Row(Some(fire), claim, evidence)
  }

  ghost predicate Claimed(captures: seq<Capture>, fire: string, claim: Claim) {
    exists name, evidence :: Scores(captures, fire, claim, name, evidence)
  }

  lemma {:induction false} VotesAre(captures: seq<Capture>, v: Vote)
    ensures v in Votes(captures) <==> Scores(captures, v.fire, v.claim, v.capture, v.evidence)
  {
    InFlatMap(captures, CaptureVotes, v);
    forall c: Capture
      ensures v in CaptureVotes(c)
              <==> c.ok && c.name == v.capture && v.claim != Pending && Row(Some(v.fire), v.claim, v.evidence) in c.rows
    {
      InFlatMap(c.rows, r => RowVotes(c.name, r), v);
      if Row(Some(v.fire), v.claim, v.evidence) in c.rows {
        assert v.claim != Pending && c.name == v.capture
            ==> v in RowVotes(c.name, Row(Some(v.fire), v.claim, v.evidence));
      }
    }
  }

  lemma {:induction false} HeardIsClaimed(captures: seq<Capture>, fire: string, claim: Claim)
    ensures claim in Heard(Votes(captures), fire) <==> Claimed(captures, fire, claim)
  {
    var votes := Votes(captures);
    if claim in Heard(votes, fire) {
      var v :| v in votes && v.fire == fire && v.claim == claim;
      VotesAre(captures, v);
    }
    if name, evidence :| Scores(captures, fire, claim, name, evidence) {
      VotesAre(captures, Vote(fire, claim, name, evidence));
      assert Vote(fire, claim, name, evidence).claim in Heard(votes, fire);
    }
  }

  lemma {:induction false} NamesOfKnown(heard: set<Claim>)
    requires Pending !in heard
    ensures var name := NameOf(KnownFrom(heard));
            && (name == "fire_ran" <==> Ran in heard && Missed !in heard)
            && (name == "fire_missed" <==> Missed in heard && Ran !in heard)
            && (name == "DISAGREE" <==> Missed in heard && Ran in heard)
  {
    forall c | c in heard ensures c == Ran || c == Missed {
    }
    assert "fire_ran" != "fire_missed" && "fire_ran" != "DISAGREE" && "fire_missed" != "DISAGREE" by {
      assert |"fire_ran"| < |"fire_missed"| && "fire_ran"[0] != "DISAGREE"[0] && "fire_missed"[0] != "DISAGREE"[0];
    }
    if Ran in heard && Missed !in heard { assert heard == {Ran}; }
    if Missed in heard && Ran !in heard { assert heard == {Missed}; }
    if Ran !in heard && Missed !in heard { assert heard == {}; }
  }

  /** The verdict of a day, from the rows: it ran when only rows that say so score it, it was missed when only
      rows that say that do, and otherwise they disagree. */
  lemma {:induction false} VerdictSays(captures: seq<Capture>, fire: string)
    ensures var verdict := DayOf(Votes(captures), fire).verdict;
            && (verdict == "fire_ran" <==> Claimed(captures, fire, Ran) && !Claimed(captures, fire, Missed))
            && (verdict == "fire_missed" <==> Claimed(captures, fire, Missed) && !Claimed(captures, fire, Ran))
            && (verdict == "DISAGREE" <==> Claimed(captures, fire, Missed) && Claimed(captures, fire, Ran))
  {
    HeardIsClaimed(captures, fire, Ran);
    HeardIsClaimed(captures, fire, Missed);
    HeardIsClaimed(captures, fire, Pending);
    NamesOfKnown(Heard(Votes(captures), fire));
  }

  /** The captures and the evidence behind a day, each once and in order; and, when there is a disagreement,
      who claims what. */
  lemma {:induction false} DaySays(captures: seq<Capture>, fire: string)
    ensures var d := DayOf(Votes(captures), fire);
            && d.fire == fire && Ascending(d.captures, Less) && Ascending(d.evidence, Less)
            && (forall x :: x in d.captures <==> exists c, e :: Scores(captures, fire, c, x, e))
            && (forall x :: x in d.evidence <==> exists c, n :: Scores(captures, fire, c, n, x))
    ensures var d := DayOf(Votes(captures), fire);
            d.claims.None? <==> |Heard(Votes(captures), fire)| == 1
  {
    var votes := Votes(captures);
    var d := DayOf(votes, fire);
    forall x ensures x in d.captures <==> exists c, e :: Scores(captures, fire, c, x, e) {
      if x in Sources(votes, fire) {
        var v :| v in votes && v.fire == fire && v.capture == x;
        VotesAre(captures, v);
      }
      if c, e :| Scores(captures, fire, c, x, e) { VotesAre(captures, Vote(fire, c, x, e)); }
    }
    forall x ensures x in d.evidence <==> exists c, n :: Scores(captures, fire, c, n, x) {
      if x in Evidence(votes, fire) {
        var v :| v in votes && v.fire == fire && v.evidence == x;
        VotesAre(captures, v);
      }
      if c, n :| Scores(captures, fire, c, n, x) { VotesAre(captures, Vote(fire, c, n, x)); }
    }
  }

  /** Who makes a claim of a fire on which they disagree. */
  lemma {:induction false} ClaimsSay(captures: seq<Capture>, fire: string, claim: Claim, x: string)
    requires DayOf(Votes(captures), fire).claims.Some?
    ensures var claims := DayOf(Votes(captures), fire).claims.value;
            && (claim in claims <==> Claimed(captures, fire, claim))
            && (claim in claims ==> (x in claims[claim] <==> exists e :: Scores(captures, fire, claim, x, e)))
  {
    var votes := Votes(captures);
    HeardIsClaimed(captures, fire, claim);
    ClaimantsAre(votes, fire, claim, x);
    if e :| Vote(fire, claim, x, e) in votes { VotesAre(captures, Vote(fire, claim, x, e)); }
    if e :| Scores(captures, fire, claim, x, e) { VotesAre(captures, Vote(fire, claim, x, e)); }
  }

  lemma {:induction false} ClaimantsAre(votes: seq<Vote>, fire: string, claim: Claim, x: string)
    ensures x in Claimants(votes, fire, claim) <==> exists e :: Vote(fire, claim, x, e) in votes
  {
    var pairs := PairsFor(votes, fire, claim);
    var names := Map(pairs, (p: (string, string)) => p.0);
    ArrangeIsPermutation(names, Less);
    assert x in Claimants(votes, fire, claim) <==> x in multiset(names);
    InFirsts(pairs, x);
    if p :| p in pairs && p.0 == x { InPairs(votes, fire, claim, p); }
    if e :| Vote(fire, claim, x, e) in votes { InPairs(votes, fire, claim, (x, e)); }
  }

  lemma {:induction false} InFirsts(pairs: seq<(string, string)>, x: string)
    ensures x in Map(pairs, (p: (string, string)) => p.0) <==> exists p :: p in pairs && p.0 == x
  {
    if pairs != [] {
      var n := |pairs| - 1;
      InFirsts(pairs[..n], x);
      assert pairs == pairs[..n] + [pairs[n]] && pairs[n] in pairs;
    }
  }

  lemma {:induction false} MapAt<S, T>(s: seq<S>, f: S -> T, i: nat)
    requires i < |s|
    ensures Map(s, f)[i] == f(s[i])
  {
    if i < |s| - 1 { MapAt(s[..|s| - 1], f, i); }
  }

  lemma {:induction false} Scored(captures: seq<Capture>, fire: string)
    ensures fire in Fires(Votes(captures)) <==> KnownAt(captures, fire) != Absent
  {
    var votes := Votes(captures);
    if fire in Fires(votes) {
      var v :| v in votes && v.fire == fire;
      assert v.claim in Heard(votes, fire);
    } else {
      assert Heard(votes, fire) == {};
    }
  }

  ghost predicate DistinctFires(days: seq<Day>) {
    forall i, j {:trigger days[i], days[j]} | 0 <= i < j < |days| :: days[i].fire != days[j].fire
  }

  lemma {:induction false} BuildHasDistinctFires(captures: seq<Capture>)
    ensures DistinctFires(Days(Votes(captures)))
  {
    var days, fires := Days(Votes(captures)), Sorted(Fires(Votes(captures)));
    forall i, j | 0 <= i < j < |days| ensures days[i].fire != days[j].fire {
      DaysAre(captures, i);
      DaysAre(captures, j);
      InOrder(fires, Less, i, j);
      LessTrichotomy(fires[i], fires[i]);
    }
  }

  // ------------------------------------------------------------------ append

  /** A line of the ledger: blank, not JSON, or a record; a record may lack either field. */
  datatype Line = Blank | Garbage | Record(fire: Option<string>, verdict: Option<string>,
                                           contradicts: Option<Option<string>>)

  type Ledger = seq<Line>

  /** The latest verdict of each fire in the ledger. */
  function Seen(ledger: Ledger): map<string, Option<string>> {
    if ledger == [] then map[]
    else
      var n := |ledger| - 1;
      var seen := Seen(ledger[..n]);
      if ledger[n].Record? && ledger[n].fire.Some? then seen[ledger[n].fire.value := ledger[n].verdict] else seen
  }

  /** The line a day appends, if any: none when the ledger already ends on its verdict. */
  function LineFor(d: Day, seen: map<string, Option<string>>): seq<Line> {
    if d.fire in seen then
      if seen[d.fire] == Some(d.verdict) then []
      else [Record(Some(d.fire), Some(d.verdict), Some(seen[d.fire]))]
    else [Record(Some(d.fire), Some(d.verdict), None)]
  }

  predicate Contradicts(d: Day, seen: map<string, Option<string>>) {
    d.fire in seen && seen[d.fire] != Some(d.verdict)
  }

  function Additions(days: seq<Day>, seen: map<string, Option<string>>): Ledger {
    FlatMap(days, (d: Day) => LineFor(d, seen))
  }

  function Contradictions(days: seq<Day>, seen: map<string, Option<string>>): seq<string> {
    FlatMap(days, (d: Day) => if Contradicts(d, seen) then [d.fire] else [])
  }

  /** The append-only file. */
  class LedgerFile {
    var lines: Ledger

    constructor (lines: Ledger)
      ensures this.lines == lines
    {
      this.lines := lines;
    }

    method Append(days: seq<Day>) returns (contradictions: seq<string>, same: nat)
      modifies this
      ensures lines == old(lines) + Additions(days, Seen(old(lines)))
      ensures contradictions == Contradictions(days, Seen(old(lines)))
      ensures same + |Additions(days, Seen(old(lines)))| == |days|
    {
      var seen := ReadSeen(lines);
      var added;
      added, contradictions, same := Compare(days, seen);
      lines := lines + added;
    }

    static method ReadSeen(ledger: Ledger) returns (seen: map<string, Option<string>>)
      ensures seen == Seen(ledger)
    {
      seen := map[];
      for i := 0 to |ledger|
        invariant seen == Seen(ledger[..i])
      {
        TakeStep(ledger, i);
        if ledger[i].Record? && ledger[i].fire.Some? {
          seen := seen[ledger[i].fire.value := ledger[i].verdict];
        }
      }
      TakeAll(ledger);
    }

    static method Compare(days: seq<Day>, seen: map<string, Option<string>>)
      returns (added: Ledger, contradictions: seq<string>, same: nat)
      ensures added == Additions(days, seen) && contradictions == Contradictions(days, seen)
      ensures same + |added| == |days|
    {
      added, contradictions, same := [], [], 0;
      for i := 0 to |days|
        invariant added == Additions(days[..i], seen) && contradictions == Contradictions(days[..i], seen)
        invariant same + |added| == i
      {
        TakeStep(days, i);
        var d := days[i];
        var prior := if d.fire in seen then Some(seen[d.fire]) else None;
        if prior == Some(Some(d.verdict)) {
          same := same + 1;
          continue;
        }
        if prior.Some? {
          contradictions := contradictions + [d.fire];
        }
        added := added + [Record(Some(d.fire), Some(d.verdict), prior)];
      }
      TakeAll(days);
    }
  }

  /** What a report appends: a record of each day whose verdict is not the ledger's latest, and with it the
      verdict it contradicts, if the ledger has one. */
  lemma {:induction false} AdditionsSay(days: seq<Day>, seen: map<string, Option<string>>, l: Line)
    ensures l in Additions(days, seen)
       <==> && l.Record? && l.fire.Some? && l.verdict.Some?
            && (exists d :: d in days && d.fire == l.fire.value && d.verdict == l.verdict.value)
            && l.contradicts == (if l.fire.value in seen then Some(seen[l.fire.value]) else None)
            && l.contradicts != Some(l.verdict)
  {
    InFlatMap(days, (d: Day) => LineFor(d, seen), l);
  }

  lemma {:induction false} SeenAppend(ledger: Ledger, line: Line)
    ensures Seen(ledger + [line])
         == if line.Record? && line.fire.Some? then Seen(ledger)[line.fire.value := line.verdict] else Seen(ledger)
  {
    assert (ledger + [line])[..|ledger|] == ledger;
  }

  ghost predicate Names(days: seq<Day>, fire: string) {
    exists i :: 0 <= i < |days| && days[i].fire == fire
  }

  /** After an append, the ledger's latest verdict for a reported fire is the report's, and for every
      other fire it is what it was. */
  lemma {:induction false} AppendedVerdicts(ledger: Ledger, days: seq<Day>, fire: string)
    requires DistinctFires(days)
    ensures var after := Seen(ledger + Additions(days, Seen(ledger)));
            && (forall i | 0 <= i < |days| && days[i].fire == fire ::
                fire in after && after[fire] == Some(days[i].verdict))
            && (!Names(days, fire) ==> (fire in after <==> fire in Seen(ledger))
                                       && (fire in after ==> after[fire] == Seen(ledger)[fire]))
  {
    var seen := Seen(ledger);
    if days == [] {
      assert ledger + [] == ledger;
    } else {
      var n := |days| - 1;
      var d := days[n];
      AppendedVerdicts(ledger, days[..n], fire);
      AppendedVerdicts(ledger, days[..n], d.fire);
      assert !Names(days[..n], d.fire);
      assert days == days[..n] + [d];
      SeenStep(ledger, days);
    }
  }

  lemma {:induction false} SeenStep(ledger: Ledger, days: seq<Day>)
    requires days != []
    ensures var n, seen := |days| - 1, Seen(ledger);
            var before := Seen(ledger + Additions(days[..n], seen));
            Seen(ledger + Additions(days, seen))
            == if LineFor(days[n], seen) == [] then before else before[days[n].fire := Some(days[n].verdict)]
  {
    var n, seen := |days| - 1, Seen(ledger);
    var before, added := Additions(days[..n], seen), LineFor(days[n], seen);
    assert Additions(days, seen) == before + added;
    if added == [] {
      assert ledger + (before + []) == ledger + before;
    } else {
      AppendAssoc(ledger, before, added[0]);
      SeenAppend(ledger + before, added[0]);
    }
  }


  /** Appending the same report again adds nothing. */
  lemma {:induction false} AppendIsIdempotent(ledger: Ledger, days: seq<Day>)
    requires DistinctFires(days)
    ensures Additions(days, Seen(ledger + Additions(days, Seen(ledger)))) == []
  {
    var after := Seen(ledger + Additions(days, Seen(ledger)));
    forall i | 0 <= i < |days| ensures LineFor(days[i], after) == [] {
      AppendedVerdicts(ledger, days, days[i].fire);
    }
    NothingToAdd(days, after);
  }

  lemma {:induction false} NothingToAdd(days: seq<Day>, seen: map<string, Option<string>>)
    requires forall i | 0 <= i < |days| :: LineFor(days[i], seen) == []
    ensures Additions(days, seen) == []
  {
    if days != [] { NothingToAdd(days[..|days| - 1], seen); }
  }

  // ------------------------------------------------------------------ verify

  /** The verdicts the ledger holds for one key; a record without a fire has the key `None`. */
  function Verdicts(ledger: Ledger, key: Option<string>): seq<Option<string>> {
    FlatMap(ledger, (l: Line) => if l.Record? && l.fire == key then [l.verdict] else [])
  }

  predicate Conflicting(ledger: Ledger, key: Option<string>) {
    |Elems(Verdicts(ledger, key))| > 1
  }

  function CountLines(ledger: Ledger, p: Line -> bool): nat {
    if ledger == [] then 0
    else CountLines(ledger[..|ledger| - 1], p) + if p(ledger[|ledger| - 1]) then 1 else 0
  }

  function GroupOver(ledger: Ledger): map<Option<string>, seq<Option<string>>> {
    if ledger == [] then map[]
    else
      var l, groups := ledger[|ledger| - 1], GroupOver(ledger[..|ledger| - 1]);
      if l.Record? then groups[l.fire := (if l.fire in groups then groups[l.fire] else []) + [l.verdict]] else groups
  }

  lemma {:induction false} GroupIs(ledger: Ledger, key: Option<string>)
    ensures key in GroupOver(ledger) <==> Verdicts(ledger, key) != []
    ensures key in GroupOver(ledger) ==> GroupOver(ledger)[key] == Verdicts(ledger, key)
  {
    if ledger != [] { GroupIs(ledger[..|ledger| - 1], key); }
  }

  datatype Audit = Audit(
    lines: nat, unparseable: nat, instants: nat, conflicts: map<Option<string>, set<Option<string>>>)

  /** `verify`: every key with more than one verdict, and which. */
  method Verify(ledger: Ledger) returns (r: Audit)
    ensures r.lines == CountLines(ledger, (l: Line) => !l.Blank?)
            && r.unparseable == CountLines(ledger, (l: Line) => l.Garbage?)
    ensures r.instants == |GroupOver(ledger)|
    ensures forall key :: key in r.conflicts <==> Conflicting(ledger, key)
    ensures forall key | key in r.conflicts :: r.conflicts[key] == Elems(Verdicts(ledger, key))
  {
    var groups: map<Option<string>, seq<Option<string>>> := map[];
    var lines, bad := 0, 0;
    for i := 0 to |ledger|
      invariant groups == GroupOver(ledger[..i])
      invariant lines == CountLines(ledger[..i], (l: Line) => !l.Blank?)
                && bad == CountLines(ledger[..i], (l: Line) => l.Garbage?)
    {
      TakeStep(ledger, i);
      match ledger[i] {
        case Blank =>
        case Garbage =>
          lines, bad := lines + 1, bad + 1;
        case Record(fire, verdict, _) =>
          lines := lines + 1;
          groups := groups[fire := (if fire in groups then groups[fire] else []) + [verdict]];
      }
    }
    TakeAll(ledger);
    var conflicts := map key | key in groups && |Elems(groups[key])| > 1 :: Elems(groups[key]);
    forall key: Option<string>
      ensures key in conflicts <==> Conflicting(ledger, key)
      ensures key in conflicts ==> conflicts[key] == Elems(Verdicts(ledger, key))
    {
      GroupIs(ledger, key);
      if Verdicts(ledger, key) == [] { assert Elems(Verdicts(ledger, key)) == {}; }
    }
    r := Audit(lines, bad, |groups|, conflicts);
  }

  /** Two records of one key that differ in their verdict. */
  ghost predicate Differ(k: Line, l: Line, key: Option<string>) {
    k.Record? && l.Record? && k.fire == l.fire == key && k.verdict != l.verdict
  }

  /** A key is in conflict exactly when two of its records differ; a count of lines is the number of lines it is
      about. */
  lemma {:induction false} AuditSays(ledger: Ledger, key: Option<string>, p: Line -> bool)
    ensures Conflicting(ledger, key) <==> exists k, l :: k in ledger && l in ledger && Differ(k, l, key)
    ensures CountLines(ledger, p) == |LinesWhere(ledger, p)|
  {
    CountIs(ledger, p);
    var verdicts := Verdicts(ledger, key);
    forall x ensures x in Elems(verdicts) <==> exists l :: l in ledger && l.Record? && l.fire == key && l.verdict == x {
      InFlatMap(ledger, (l: Line) => if l.Record? && l.fire == key then [l.verdict] else [], x);
    }
    if Conflicting(ledger, key) {
      var x, y := TwoOf(Elems(verdicts));
      var k :| k in ledger && k.Record? && k.fire == key && k.verdict == x;
      var l :| l in ledger && l.Record? && l.fire == key && l.verdict == y;
      assert Differ(k, l, key);
    }
    if k, l :| k in ledger && l in ledger && Differ(k, l, key) {
      assert k.verdict in Elems(verdicts) && l.verdict in Elems(verdicts);
      TwoElements(Elems(verdicts), k.verdict, l.verdict);
    }
  }

  lemma {:induction false} TwoOf<T>(s: set<T>) returns (x: T, y: T)
    requires |s| > 1
    ensures x in s && y in s && x != y
  {
    x :| x in s;
    assert |s - {x}| > 0;
    y :| y in s - {x};
  }

  function LinesWhere(ledger: Ledger, p: Line -> bool): set<int> {
    set i | 0 <= i < |ledger| && p(ledger[i])
  }

  lemma {:induction false} CountIs(ledger: Ledger, p: Line -> bool)
    ensures CountLines(ledger, p) == |LinesWhere(ledger, p)|
  {
    if ledger == [] {
      assert LinesWhere(ledger, p) == {};
    } else {
      var n := |ledger| - 1;
      CountIs(ledger[..n], p);
      forall i ensures i in LinesWhere(ledger, p) <==> i in LinesWhere(ledger[..n], p) || (i == n && p(ledger[n])) {
        if 0 <= i < n { assert ledger[..n][i] == ledger[i]; }
      }
      assert LinesWhere(ledger, p) == LinesWhere(ledger[..n], p) + if p(ledger[n]) then {n} else {};
    }
  }

  lemma {:induction false} VerdictsAppend(ledger: Ledger, line: Line, key: Option<string>)
    ensures Verdicts(ledger + [line], key)
            == Verdicts(ledger, key) + if line.Record? && line.fire == key then [line.verdict] else []
  {
    assert (ledger + [line])[..|ledger|] == ledger;
  }

  /** The latest verdict of a fire is one of its verdicts, and it has one if it has any. */
  lemma {:induction false} SeenIsAVerdict(ledger: Ledger, fire: string)
    ensures fire in Seen(ledger) <==> Verdicts(ledger, Some(fire)) != []
    ensures fire in Seen(ledger) ==> Seen(ledger)[fire] in Verdicts(ledger, Some(fire))
  {
    if ledger != [] { SeenIsAVerdict(ledger[..|ledger| - 1], fire); }
  }

  /** The verdicts an append gives one key: the report's, when it is new. */
  lemma {:induction false} AppendedTo(ledger: Ledger, days: seq<Day>, key: Option<string>)
    requires DistinctFires(days)
    ensures var seen := Seen(ledger);
            var after := Verdicts(ledger + Additions(days, seen), key);
            && (forall i | 0 <= i < |days| && Some(days[i].fire) == key ::
                  after == Verdicts(ledger, key) + if LineFor(days[i], seen) == [] then [] else [Some(days[i].verdict)])
            && ((key.None? || !Names(days, key.value)) ==> after == Verdicts(ledger, key))
  {
    var seen := Seen(ledger);
    if days == [] {
      assert ledger + [] == ledger;
    } else {
      var n := |days| - 1;
      var d := days[n];
      AppendedTo(ledger, days[..n], key);
      assert !Names(days[..n], d.fire);
      assert days == days[..n] + [d];
      AdditionsStep(ledger, days, key);
    }
  }

  lemma {:induction false} AdditionsStep(ledger: Ledger, days: seq<Day>, key: Option<string>)
    requires days != []
    ensures var n, seen := |days| - 1, Seen(ledger);
            Verdicts(ledger + Additions(days, seen), key)
            == Verdicts(ledger + Additions(days[..n], seen), key)
               + if LineFor(days[n], seen) != [] && Some(days[n].fire) == key then [Some(days[n].verdict)] else []
  {
    var n, seen := |days| - 1, Seen(ledger);
    var before, added := Additions(days[..n], seen), LineFor(days[n], seen);
    assert Additions(days, seen) == before + added;
    if added == [] {
      assert ledger + (before + []) == ledger + before;
    } else {
      AppendAssoc(ledger, before, added[0]);
      VerdictsAppend(ledger + before, added[0], key);
    }
  }

  lemma {:induction false} TwoElements<T>(s: set<T>, a: T, b: T)
    requires a in s && b in s && a != b
    ensures |s| > 1
  {
    assert s == {a} + (s - {a}) && b in s - {a};
    assert |s - {a}| > 0;
  }

  lemma {:induction false} InContradictions(days: seq<Day>, seen: map<string, Option<string>>, fire: string)
    ensures fire in Contradictions(days, seen)
            <==> exists i :: 0 <= i < |days| && days[i].fire == fire && Contradicts(days[i], seen)
  {
    var f := (d: Day) => if Contradicts(d, seen) then [d.fire] else [];
    InFlatMap(days, f, fire);
    if d :| d in days && fire in f(d) {
      var i :| 0 <= i < |days| && days[i] == d;
    }
    if i :| 0 <= i < |days| && days[i].fire == fire && Contradicts(days[i], seen) {
      assert days[i] in days && fire in f(days[i]);
    }
  }

  /** The conflicts `verify` finds after an append are those it found before and the contradictions the
      append flagged. */
  lemma {:induction false} ConflictsAfterAppend(ledger: Ledger, days: seq<Day>, key: Option<string>)
    requires DistinctFires(days)
    ensures var seen := Seen(ledger);
            Conflicting(ledger + Additions(days, seen), key)
            <==> Conflicting(ledger, key) || (key.Some? && key.value in Contradictions(days, seen))
  {
    var seen := Seen(ledger);
    AppendedTo(ledger, days, key);
    if key.Some? {
      InContradictions(days, seen, key.value);
      if i :| 0 <= i < |days| && days[i].fire == key.value {
        SeenIsAVerdict(ledger, key.value);
        DayConflict(ledger, days[i]);
        assert forall j | 0 <= j < |days| && days[j].fire == key.value :: j == i;
      }
    }
  }

  lemma {:induction false} DayConflict(ledger: Ledger, d: Day)
    ensures var seen, before := Seen(ledger), Verdicts(ledger, Some(d.fire));
            var after := before + if LineFor(d, seen) == [] then [] else [Some(d.verdict)];
            |Elems(after)| > 1 <==> |Elems(before)| > 1 || Contradicts(d, seen)
  {
    var seen, before := Seen(ledger), Verdicts(ledger, Some(d.fire));
    SeenIsAVerdict(ledger, d.fire);
    if LineFor(d, seen) == [] {
      assert before + [] == before;
    } else {
      var after := before + [Some(d.verdict)];
      assert Elems(after) == Elems(before) + {Some(d.verdict)};
      if d.fire in seen {
        assert after[|before|] == Some(d.verdict) && seen[d.fire] in before;
        TwoElements(Elems(after), seen[d.fire], Some(d.verdict));
      } else {
        assert Elems(before) == {} && Elems(after) == {Some(d.verdict)};
      }
    }
  }

  /** The ledger's latest verdicts are those of some captures, though it may lack some. */
  ghost predicate Faithful(ledger: Ledger, captures: seq<Capture>) {
    forall fire | fire in Seen(ledger) :: RecordedAs(ledger, captures, fire)
  }

  /** The ledger holds every fire the captures know of, with the verdict they give, and no other. */
  ghost predicate RecordsAll(ledger: Ledger, captures: seq<Capture>) {
    forall fire :: RightAt(ledger, captures, fire)
  }

  ghost predicate RightAt(ledger: Ledger, captures: seq<Capture>, fire: string) {
    if KnownAt(captures, fire) == Absent then fire !in Seen(ledger) else RecordedAs(ledger, captures, fire)
  }

  ghost predicate RecordedAs(ledger: Ledger, captures: seq<Capture>, fire: string) {
    && KnownAt(captures, fire) != Absent
    && fire in Seen(ledger) && Seen(ledger)[fire] == Some(NameOf(KnownAt(captures, fire)))
  }

  lemma {:induction false} DayNamed(captures: seq<Capture>, fire: string)
    ensures Names(Days(Votes(captures)), fire) <==> KnownAt(captures, fire) != Absent
  {
    var votes := Votes(captures);
    var days, fires := Days(votes), Sorted(Fires(votes));
    Scored(captures, fire);
    if fire in Fires(votes) {
      assert fire in fires;
      var i :| 0 <= i < |fires| && fires[i] == fire;
      DaysAre(captures, i);
      assert days[i].fire == fire;
    }
    if i :| 0 <= i < |days| && days[i].fire == fire {
      DaysAre(captures, i);
    }
  }

  /** Building from captures into an empty ledger records them all, with no conflict. */
  lemma {:induction false} FirstBuildRecords(captures: seq<Capture>)
    ensures RecordsAll(Additions(Days(Votes(captures)), map[]), captures)
    ensures forall key :: !Conflicting(Additions(Days(Votes(captures)), map[]), key)
  {
    var days := Days(Votes(captures));
    BuildHasDistinctFires(captures);
    assert [] + Additions(days, map[]) == Additions(days, map[]);
    forall fire: string ensures RightAt(Additions(days, map[]), captures, fire) {
      BuiltRecord([], captures, fire);
    }
    forall key ensures !Conflicting(Additions(days, map[]), key) {
      ConflictsAfterAppend([], days, key);
      if key.Some? { InContradictions(days, map[], key.value); }
      assert Verdicts([], key) == [] && Elems(Verdicts([], key)) == {};
    }
  }

  lemma {:induction false} BuiltRecord(ledger: Ledger, captures: seq<Capture>, fire: string)
    ensures var after := ledger + Additions(Days(Votes(captures)), Seen(ledger));
            && (KnownAt(captures, fire) != Absent ==> RecordedAs(after, captures, fire))
            && (fire in Seen(after) ==> RecordedAs(after, captures, fire) || fire in Seen(ledger))
  {
    var days := Days(Votes(captures));
    BuildHasDistinctFires(captures);
    AppendedVerdicts(ledger, days, fire);
    DayNamed(captures, fire);
    if i :| 0 <= i < |days| && days[i].fire == fire {
      DaysAre(captures, i);
    }
  }

  /** The whole point: a ledger that records some captures, appended to from those and more, records
      them all; and every contradiction it flags is a verdict that became a disagreement. */
  lemma {:induction false} GrowingCaptures(ledger: Ledger, a: seq<Capture>, b: seq<Capture>)
    requires Faithful(ledger, a)
    ensures var days := Days(Votes(a + b));
            && RecordsAll(ledger + Additions(days, Seen(ledger)), a + b)
            && forall fire | fire in Contradictions(days, Seen(ledger)) ::
                 KnownAt(a, fire) != Absent && KnownAt(a + b, fire) == Disagree != KnownAt(a, fire)
  {
    var days := Days(Votes(a + b));
    forall fire: string ensures RightAt(ledger + Additions(days, Seen(ledger)), a + b, fire) {
      BuiltRecord(ledger, a + b, fire);
      UnionIsJoin(a, b, fire);
      assert fire in Seen(ledger) ==> RecordedAs(ledger, a, fire);
    }
    forall fire | fire in Contradictions(days, Seen(ledger))
      ensures KnownAt(a, fire) != Absent && KnownAt(a + b, fire) == Disagree != KnownAt(a, fire)
    {
      InContradictions(days, Seen(ledger), fire);
      var i :| 0 <= i < |days| && days[i].fire == fire && Contradicts(days[i], Seen(ledger));
      DaysAre(a + b, i);
      AddingCapturesOnlyDisagrees(a, b, fire);
      assert fire in Seen(ledger) ==> RecordedAs(ledger, a, fire);
    }
  }

  // ------------------------------------------------------------------ whole histories

  /** The captures of the first rounds together. */
  function Together(batches: seq<seq<Capture>>): seq<Capture> {
    if batches == [] then [] else Together(batches[..|batches| - 1]) + batches[|batches| - 1]
  }

  /** The ledger after each round has added its captures and appended the report over all of them. */
  function LedgerAfter(batches: seq<seq<Capture>>): Ledger {
    if batches == [] then []
    else
      var before := LedgerAfter(batches[..|batches| - 1]);
      before + Additions(Days(Votes(Together(batches))), Seen(before))
  }

  lemma {:induction false} NothingKnown(fire: string)
    ensures KnownAt([], fire) == Absent
  {
    assert Votes([]) == [] && Heard([], fire) == {};
  }

  /** After any history the ledger records everything known, as it is known now. */
  lemma {:induction false} HistoryRecordsAll(batches: seq<seq<Capture>>)
    ensures RecordsAll(LedgerAfter(batches), Together(batches))
  {
    if batches == [] {
      forall fire: string ensures RightAt([], [], fire) {
        NothingKnown(fire);
      }
    } else {
      var n := |batches| - 1;
      HistoryRecordsAll(batches[..n]);
      RecordsAllIsFaithful(LedgerAfter(batches[..n]), Together(batches[..n]));
      GrowingCaptures(LedgerAfter(batches[..n]), Together(batches[..n]), batches[n]);
    }
  }

  lemma {:induction false} RecordsAllIsFaithful(ledger: Ledger, captures: seq<Capture>)
    requires RecordsAll(ledger, captures)
    ensures Faithful(ledger, captures)
  {
    forall fire | fire in Seen(ledger) ensures RecordedAs(ledger, captures, fire) {
      assert RightAt(ledger, captures, fire);
    }
  }

  /** The fire was unanimous after the first `k` rounds. */
  ghost predicate WasSaid(batches: seq<seq<Capture>>, fire: string, k: nat) {
    k <= |batches| && KnownAt(Together(batches[..k]), fire).Said?
  }

  ghost predicate Turned(batches: seq<seq<Capture>>, fire: string) {
    KnownAt(Together(batches), fire) == Disagree && exists k: nat :: WasSaid(batches, fire, k)
  }

  lemma {:induction false} ContradictionIs(captures: seq<Capture>, seen: map<string, Option<string>>, fire: string)
    ensures fire in Contradictions(Days(Votes(captures)), seen)
       <==> && KnownAt(captures, fire) != Absent && fire in seen
            && seen[fire] != Some(NameOf(KnownAt(captures, fire)))
  {
    var days := Days(Votes(captures));
    InContradictions(days, seen, fire);
    DayNamed(captures, fire);
    if i :| 0 <= i < |days| && days[i].fire == fire {
      DaysAre(captures, i);
      forall j | 0 <= j < |days| && days[j].fire == fire ensures days[j].verdict == days[i].verdict {
        DaysAre(captures, j);
      }
    }
  }

  /** A report contradicts a ledger of what was known before on exactly the fires that were unanimous and
      are so no longer. */
  lemma {:induction false} ContradictsWhenTurning(ledger: Ledger, a: seq<Capture>, b: seq<Capture>, fire: string)
    requires RightAt(ledger, a, fire)
    ensures fire in Contradictions(Days(Votes(a + b)), Seen(ledger))
       <==> KnownAt(a, fire).Said? && KnownAt(a + b, fire) == Disagree
  {
    ContradictionIs(a + b, Seen(ledger), fire);
    AddingCapturesOnlyDisagrees(a, b, fire);
    if KnownAt(a, fire) != Absent { VerdictsDiffer(KnownAt(a, fire), KnownAt(a + b, fire)); }
  }

  lemma {:induction false} VerdictsDiffer(a: Known, b: Known)
    requires a != Absent && b != Absent && a != Said(Pending) && b != Said(Pending)
    ensures NameOf(a) == NameOf(b) <==> a == b
  {
  }

  lemma {:induction false} WasSaidStep(batches: seq<seq<Capture>>, fire: string)
    requires batches != []
    ensures var n := |batches| - 1;
            (exists k: nat :: WasSaid(batches, fire, k))
            <==> (exists k: nat :: WasSaid(batches[..n], fire, k)) || KnownAt(Together(batches), fire).Said?
  {
    var n := |batches| - 1;
    if k: nat :| WasSaid(batches[..n], fire, k) {
      assert batches[..n][..k] == batches[..k];
      assert WasSaid(batches, fire, k);
    }
    assert batches[..|batches|] == batches;
    if KnownAt(Together(batches), fire).Said? { assert WasSaid(batches, fire, |batches|); }
    if k: nat :| WasSaid(batches, fire, k) {
      if k <= n {
        assert batches[..n][..k] == batches[..k];
        assert WasSaid(batches[..n], fire, k);
      }
    }
  }

  /** And `verify` finds a conflict in exactly the fires that were unanimous at some time and disagree now. */
  lemma {:induction false} ConflictsTellHistory(batches: seq<seq<Capture>>, fire: string)
    ensures Conflicting(LedgerAfter(batches), Some(fire)) <==> Turned(batches, fire)
  {
    if batches == [] {
      assert Verdicts([], Some(fire)) == [] && Elems(Verdicts([], Some(fire))) == {};
      NothingKnown(fire);
    } else {
      var n := |batches| - 1;
      ConflictsTellHistory(batches[..n], fire);
      BuildHasDistinctFires(Together(batches));
      ConflictsAfterAppend(LedgerAfter(batches[..n]), Days(Votes(Together(batches))), Some(fire));
      HistoryRecordsAll(batches[..n]);
      assert RightAt(LedgerAfter(batches[..n]), Together(batches[..n]), fire);
      ContradictsWhenTurning(LedgerAfter(batches[..n]), Together(batches[..n]), batches[n], fire);
      WasSaidStep(batches, fire);
      AddingCapturesOnlyDisagrees(Together(batches[..n]), batches[n], fire);
      LastSaid(batches[..n], fire);
    }
  }

  /** What is unanimous now was so in the end. */
  lemma {:induction false} LastSaid(batches: seq<seq<Capture>>, fire: string)
    ensures KnownAt(Together(batches), fire).Said? ==> exists k: nat :: WasSaid(batches, fire, k)
    ensures (exists k: nat :: WasSaid(batches, fire, k)) ==> KnownAt(Together(batches), fire) != Absent
  {
    if batches == [] {
      NothingKnown(fire);
      forall k: nat ensures !WasSaid(batches, fire, k) {
        if k == 0 { assert batches[..k] == []; }
      }
    } else {
      var n := |batches| - 1;
      LastSaid(batches[..n], fire);
      WasSaidStep(batches, fire);
      AddingCapturesOnlyDisagrees(Together(batches[..n]), batches[n], fire);
    }
  }
}
