/** harness/wiring_audit.py, the registry of entry points: deriving entries, and auditing them. */
module WiringRegistry {
  import opened Order
  import opened Seqs
  import opened Text
  import opened Dict
  import opened WiringGraph
  import opened WiringInsert

  const ROTATION := 6

  /** One entry; a key the JSON object lacks is `None`. */
  datatype Entry = Entry(
    status: Option<string>, via: Option<string>, viaKind: Option<string>, reason: Option<string>, since: Option<int>)

  /** The registry file. An entry may be JSON `null`. */
  datatype Registry = Registry(vendored: seq<string>, frozen: seq<string>, entries: Dict<Option<Entry>>)

  /** The tracked tree, and which `.py` files hold a main guard. */
  datatype Checkout = Checkout(tracked: set<string>, hasGuard: string -> bool) {

    function NodeSet(): set<string> {
      set p | p in tracked && (EndsWith(p, ".py") || EndsWith(p, ".sh"))
    }

    predicate IsEntryPoint(p: string) {
      EndsWith(p, ".sh") || (EndsWith(p, ".py") && hasGuard(p))
    }
  }

  predicate IsExcluded(path: string, prefixes: seq<string>) {
    exists pfx | pfx in prefixes :: StartsWith(path, pfx)
  }

  function Prefixes(reg: Option<Registry>): seq<string> {
    if reg.None? then [] else reg.value.vendored + reg.value.frozen
  }

  predicate Eligible(co: Checkout, prefixes: seq<string>, p: string) {
    p in co.NodeSet() && co.IsEntryPoint(p) && !IsExcluded(p, prefixes)
  }

  /** The basename: what follows the last slash. */
  function Basename(path: string): string {
    RPartition(path, '/').1
  }

  predicate Contains(s: string, t: string) {
    exists i | 0 <= i <= |s| :: t <= s[i..]
  }

  predicate IsTestFile(path: string) {
    EndsWith(path, ".py") && (StartsWith(Basename(path), "test_") || Contains(path, "/tests/"))
  }

  /** Evidence that is only a name in a test's text. */
  predicate IsWeak(best: Option<Incoming>) {
    best.Some? && best.value.kind == Path && IsTestFile(best.value.src)
  }

  /** Who is audited: a tracked shell script, or Python file with a main guard, that lies under no vendored or
      frozen prefix. */
  lemma {:induction false} EligibleSays(co: Checkout, reg: Registry, p: string)
    ensures Eligible(co, Prefixes(Some(reg)), p)
       <==> && p in co.tracked && (EndsWith(p, ".sh") || (EndsWith(p, ".py") && co.hasGuard(p)))
            && (forall pfx | pfx in reg.vendored :: !(pfx <= p)) && (forall pfx | pfx in reg.frozen :: !(pfx <= p))
  {
    forall pfx ensures pfx in Prefixes(Some(reg)) <==> pfx in reg.vendored || pfx in reg.frozen {
    }
  }

  /** A Python file is a test by its name, or by lying in a directory of tests. */
  lemma {:induction false} TestFileSays(dir: string, name: string)
    requires '/' !in name
    ensures IsTestFile(dir + "/" + "test_" + name + ".py") && IsTestFile(dir + "/tests/" + name + ".py")
  {
    var p, q := dir + "/" + "test_" + name + ".py", dir + "/tests/" + name + ".py";
    assert p == dir + ['/'] + ("test_" + name + ".py");
    RPartitionAt(dir, "test_" + name + ".py", '/');
    assert p[|p| - 3..] == ".py" && q[|q| - 3..] == ".py";
    assert "/tests/" <= q[|dir|..];
  }

  // ------------------------------------------------------------------ audit

  datatype Code = W001 | W002 | W003 | W004 | W005 | W006

  datatype Finding = Finding(code: Code, path: string)

  predicate IsError(c: Code) {
    c == W001 || c == W002 || c == W003 || c == W004
  }

  /** What the finished search says about one file. */
  datatype Evidence = Evidence(reached: bool, isRoot: bool, best: Option<Incoming>)

  function EvidenceOf(w: Wiring, seen: set<string>, depth: map<string, nat>, p: string): Evidence {
    Evidence(p in seen, p in w.roots, if seen <= depth.Keys then Best(w, seen, depth, p) else None)
  }

  function Best(w: Wiring, seen: set<string>, depth: map<string, nat>, p: string): Option<Incoming>
    requires seen <= depth.Keys
  {
    assert forall s | s in Sorted(seen) :: s in depth;
    BestOver(w, depth, p, Sorted(seen))
  }

  /** The verdict on one entry point; `entry` is what a lookup of its path gives. */
  function PathFindings(path: string, entry: Option<Option<Entry>>, ev: Evidence, rnd: Option<int>): seq<Finding> {
    if entry.None? || entry.value.None? then [Finding(W001, path)]
    else
      var e := entry.value.value;
      var wired, unwired, manual := e.status == Some("wired"), e.status == Some("unwired"), e.status == Some("manual");
      (if wired && !ev.reached then [Finding(W002, path)]
       else if (unwired || manual) && ev.reached then (if IsWeak(ev.best) then [] else [Finding(W003, path)])
       else if !wired && !unwired && !manual then [Finding(W004, path)]
       else [])
      + (if wired && ev.reached && !ev.isRoot && IsWeak(ev.best) then [Finding(W006, path)] else [])
      + (if unwired && rnd.Some? && e.since.Some? && rnd.value - e.since.value >= ROTATION
         then [Finding(W005, path)] else [])
  }

  /** A declared prefix that excludes nothing. */
  function PrefixFinding(co: Checkout, prefix: string): seq<Finding> {
    if exists p | p in co.tracked :: StartsWith(p, prefix) then [] else [Finding(W004, prefix)]
  }

  /** A declared path that does not exist. */
  function MissingFinding(co: Checkout, path: string): seq<Finding> {
    if path in co.NodeSet() then [] else [Finding(W004, path)]
  }

  function NodeFindings(co: Checkout, reg: Registry, w: Wiring, seen: set<string>, depth: map<string, nat>,
      rnd: Option<int>, path: string): seq<Finding> {
    if Eligible(co, Prefixes(Some(reg)), path)
    then PathFindings(path, Get(reg.entries, path), EvidenceOf(w, seen, depth, path), rnd)
    else []
  }

  const REGISTRY_NAME := "harness/wiring-registry.json"

  function PrefixFindings(co: Checkout, prefixes: seq<string>): seq<Finding> {
    FlatMap(prefixes, p => PrefixFinding(co, p))
  }

  function MissingFindings(co: Checkout, declared: seq<string>): seq<Finding> {
    FlatMap(declared, p => MissingFinding(co, p))
  }

  function EntryFindings(co: Checkout, reg: Registry, w: Wiring, seen: set<string>, depth: map<string, nat>,
      rnd: Option<int>, nodes: seq<string>): seq<Finding> {
    FlatMap(nodes, p => NodeFindings(co, reg, w, seen, depth, rnd, p))
  }

  function Findings(co: Checkout, reg: Option<Registry>, w: Wiring, seen: set<string>, depth: map<string, nat>,
      rnd: Option<int>): seq<Finding> {
    match reg
    case None => [Finding(W004, REGISTRY_NAME)]
    case Some(r) =>
      PrefixFindings(co, r.vendored + r.frozen)
      + MissingFindings(co, Sorted(Keys(r.entries)))
      + EntryFindings(co, r, w, seen, depth, rnd, Sorted(co.NodeSet()))
  }

  method EntryLoop(co: Checkout, reg: Registry, g: Graph, rnd: Option<int>,
      nodes: seq<string>) returns (findings: seq<Finding>)
    requires g.Valid() && g.reached.Some?
    ensures findings == EntryFindings(co, reg, g.w, g.reached.value, g.depth, rnd, nodes)
  {
    var w, seen, depth := g.w, g.reached.value, g.depth;
    findings := [];
    for i := 0 to |nodes|
      invariant findings == EntryFindings(co, reg, w, seen, depth, rnd, nodes[..i])
    {
      TakeStep(nodes, i);
      var path := nodes[i];
      if Eligible(co, Prefixes(Some(reg)), path) {
        var best := g.BestKnown(path);
        assert EvidenceOf(w, seen, depth, path) == Evidence(path in seen, path in w.roots, best);
        findings := findings + PathFindings(path, Get(reg.entries, path),
                                            Evidence(path in seen, path in w.roots, best), rnd);
      } else {
        assert findings + [] == findings;
      }
    }
    TakeAll(nodes);
  }

  method PrefixLoop(co: Checkout, prefixes: seq<string>) returns (findings: seq<Finding>)
    ensures findings == PrefixFindings(co, prefixes)
  {
    findings := [];
    for i := 0 to |prefixes|
      invariant findings == PrefixFindings(co, prefixes[..i])
    {
      TakeStep(prefixes, i);
      findings := findings + PrefixFinding(co, prefixes[i]);
    }
    TakeAll(prefixes);
  }

  method MissingLoop(co: Checkout, declared: seq<string>) returns (findings: seq<Finding>)
    ensures findings == MissingFindings(co, declared)
  {
    findings := [];
    for i := 0 to |declared|
      invariant findings == MissingFindings(co, declared[..i])
    {
      TakeStep(declared, i);
      findings := findings + MissingFinding(co, declared[i]);
    }
    TakeAll(declared);
  }

  method Audit(co: Checkout, reg: Option<Registry>, g: Graph, rnd: Option<int>) returns (findings: seq<Finding>)
    requires g.Valid() && g.w.nodes == co.NodeSet()
    modifies g
    ensures g.Valid() && g.reached.Some? && findings == Findings(co, reg, g.w, g.reached.value, g.depth, rnd)
  {
    var seen := g.Closure();
    findings := AuditLoops(co, reg, g, rnd);
  }

  method AuditLoops(co: Checkout, reg: Option<Registry>, g: Graph, rnd: Option<int>) returns (findings: seq<Finding>)
    requires g.Valid() && g.reached.Some?
    ensures findings == Findings(co, reg, g.w, g.reached.value, g.depth, rnd)
  {
    match reg {
      case None =>
        findings := [Finding(W004, REGISTRY_NAME)];
      case Some(r) =>
        var prefixes := PrefixLoop(co, r.vendored + r.frozen);
        var missing := MissingLoop(co, Sorted(Keys(r.entries)));
        var entries := EntryLoop(co, r, g, rnd, Sorted(co.NodeSet()));
        findings := prefixes + missing + entries;
    }
  }

  // ------------------------------------------------------------------ undeclared

  /** Entry points with no registry entry, without the graph; `paths` restricts the scan. */
  function Undeclared(co: Checkout, paths: Option<set<string>>, reg: Option<Registry>): set<string> {
    set p | p in co.NodeSet() && (paths.Some? ==> p in paths.value) && Eligible(co, Prefixes(reg), p)
            && (reg.Some? ==> p !in Keys(reg.value.entries))
  }

  lemma {:induction false} PrefixFindingsAre(co: Checkout, prefixes: seq<string>, f: Finding)
    ensures f in PrefixFindings(co, prefixes)
       <==> f.code == W004 && f.path in prefixes && forall p | p in co.tracked :: !StartsWith(p, f.path)
  {
    InFlatMap(prefixes, p => PrefixFinding(co, p), f);
  }

  lemma {:induction false} MissingFindingsAre(co: Checkout, declared: seq<string>, f: Finding)
    ensures f in MissingFindings(co, declared) <==> f.code == W004 && f.path in declared && f.path !in co.NodeSet()
  {
    InFlatMap(declared, p => MissingFinding(co, p), f);
  }

  lemma {:induction false} FindingsOfPath(path: string, entry: Option<Option<Entry>>, ev: Evidence, rnd: Option<int>,
      f: Finding)
    ensures f in PathFindings(path, entry, ev, rnd) ==> f.path == path
    ensures Finding(W001, path) in PathFindings(path, entry, ev, rnd) <==> entry == None || entry == Some(None)
  {
  }

  lemma {:induction false} EntryFindingsAre(co: Checkout, reg: Registry, w: Wiring, seen: set<string>,
      depth: map<string, nat>, rnd: Option<int>, nodes: seq<string>, f: Finding)
    ensures f in EntryFindings(co, reg, w, seen, depth, rnd, nodes)
       <==> f.path in nodes && f in NodeFindings(co, reg, w, seen, depth, rnd, f.path)
  {
    var of := p => NodeFindings(co, reg, w, seen, depth, rnd, p);
    InFlatMap(nodes, of, f);
    forall p: string ensures f in of(p) ==> f.path == p {
      FindingsOfPath(p, Get(reg.entries, p), EvidenceOf(w, seen, depth, p), rnd, f);
    }
  }

  /** What an audit with a registry reports, finding by finding. */
  lemma {:induction false} FindingsAre(co: Checkout, reg: Registry, w: Wiring, seen: set<string>,
      depth: map<string, nat>, rnd: Option<int>, f: Finding)
    ensures f in Findings(co, Some(reg), w, seen, depth, rnd)
       <==> || (f.code == W004 && f.path in reg.vendored + reg.frozen
                && forall p | p in co.tracked :: !StartsWith(p, f.path))
            || (f.code == W004 && f.path in Keys(reg.entries) && f.path !in co.NodeSet())
            || (f.path in co.NodeSet() && f in NodeFindings(co, reg, w, seen, depth, rnd, f.path))
  {
    var declared, nodes := Sorted(Keys(reg.entries)), Sorted(co.NodeSet());
    PrefixFindingsAre(co, reg.vendored + reg.frozen, f);
    MissingFindingsAre(co, declared, f);
    EntryFindingsAre(co, reg, w, seen, depth, rnd, nodes, f);
    assert f.path in declared <==> f.path in Keys(reg.entries);
    assert f.path in nodes <==> f.path in co.NodeSet();
  }

  lemma {:induction false} W001Is(co: Checkout, reg: Registry, w: Wiring, seen: set<string>, depth: map<string, nat>,
      rnd: Option<int>, p: string)
    ensures Finding(W001, p) in Findings(co, Some(reg), w, seen, depth, rnd)
       <==> Eligible(co, Prefixes(Some(reg)), p) && (Get(reg.entries, p) == None || Get(reg.entries, p) == Some(None))
  {
    var f := Finding(W001, p);
    FindingsAre(co, reg, w, seen, depth, rnd, f);
    FindingsOfPath(p, Get(reg.entries, p), EvidenceOf(w, seen, depth, p), rnd, f);
  }

  predicate HasStatus(reg: Registry, p: string, status: string) {
    Declares(Get(reg.entries, p), status)
  }

  /** Evidence for `p` in a reached file. */
  predicate Evident(w: Wiring, seen: set<string>, p: string, e: Incoming) {
    e.src in seen && IsEvidence(w, e, p)
  }

  /** Evidence whose source is as near to the roots as any. */
  ghost predicate Nearest(w: Wiring, seen: set<string>, depth: map<string, nat>, p: string, e: Incoming) {
    && Evident(w, seen, p, e) && e.src in depth
    && forall f | Evident(w, seen, p, f) && f.src in depth :: depth[e.src] <= depth[f.src]
  }

  /** All the nearest evidence is text, and the source that comes first by name is a test. */
  ghost predicate LedByTestText(w: Wiring, seen: set<string>, depth: map<string, nat>, p: string) {
    exists e :: Nearest(w, seen, depth, p, e) && IsWeak(Some(e)) && FirstText(w, seen, depth, p, e)
  }

  ghost predicate FirstText(w: Wiring, seen: set<string>, depth: map<string, nat>, p: string, e: Incoming) {
    forall f | Nearest(w, seen, depth, p, f) :: f.kind == Path && (f == e || Less(e.src, f.src))
  }

  /** What "only text inside a test" says: all the evidence from reached files is. */
  ghost predicate OnlyTestText(w: Wiring, seen: set<string>, p: string) {
    forall e | Evident(w, seen, p, e) :: IsWeak(Some(e))
  }

  ghost predicate Sourced(seen: set<string>, depth: map<string, nat>) {
    forall s | s in Sorted(seen) :: s in depth
  }

  lemma {:induction false} BestIsNearest(w: Wiring, seen: set<string>, depth: map<string, nat>, p: string, b: Incoming)
    requires Sourced(seen, depth) && IsBest(w, depth, p, Sorted(seen), Some(b))
    ensures Nearest(w, seen, depth, p, b)
  {
    assert b.src in seen;
    forall f | Evident(w, seen, p, f) && f.src in depth ensures depth[b.src] <= depth[f.src] {
      assert f.src in Sorted(seen);
    }
  }

  lemma {:induction false} WeakBestLeads(w: Wiring, seen: set<string>, depth: map<string, nat>, p: string, b: Incoming)
    requires Sourced(seen, depth) && IsBest(w, depth, p, Sorted(seen), Some(b)) && IsWeak(Some(b))
    ensures LedByTestText(w, seen, depth, p)
  {
    BestIsNearest(w, seen, depth, p, b);
    forall f | Nearest(w, seen, depth, p, f) ensures f.kind == Path && (f == b || Less(b.src, f.src)) {
      assert f.src in Sorted(seen) && Evident(w, seen, p, b);
    }
    assert FirstText(w, seen, depth, p, b);
  }

  lemma {:induction false} LeadIsBest(w: Wiring, seen: set<string>, depth: map<string, nat>, p: string, b: Incoming)
    requires Sourced(seen, depth) && IsBest(w, depth, p, Sorted(seen), Some(b))
    requires LedByTestText(w, seen, depth, p)
    ensures IsWeak(Some(b))
  {
    BestIsNearest(w, seen, depth, p, b);
    var e :| Nearest(w, seen, depth, p, e) && IsWeak(Some(e)) && FirstText(w, seen, depth, p, e);
    TextIsBest(w, seen, depth, p, b, e);
  }

  lemma {:induction false} TextIsBest(w: Wiring, seen: set<string>, depth: map<string, nat>, p: string, b: Incoming,
      e: Incoming)
    requires Sourced(seen, depth) && IsBest(w, depth, p, Sorted(seen), Some(b)) && Nearest(w, seen, depth, p, b)
    requires Nearest(w, seen, depth, p, e) && e.kind == Path && FirstText(w, seen, depth, p, e)
    ensures b == e
  {
    assert e.src in Sorted(seen);
    assert b == e || Less(e.src, b.src);
    assert depth[b.src] == depth[e.src];
    if b != e { LaterIsNotBetter(depth, b, e); }
  }

  lemma {:induction false} LaterIsNotBetter(depth: map<string, nat>, b: Incoming, e: Incoming)
    requires b.src in depth && e.src in depth && depth[b.src] == depth[e.src]
    requires b.kind == e.kind && Less(e.src, b.src)
    ensures !Better(depth, b, e)
  {
    LessTrichotomy(e.src, e.src);
    if Less(b.src, e.src) { LessTransitive(e.src, b.src, e.src); }
  }

  lemma {:induction false} SearchedIsSourced(w: Wiring, seen: set<string>, via: map<string, Option<Incoming>>,
      depth: map<string, nat>)
    requires Searched(w, seen, via, depth)
    ensures Sourced(seen, depth) && seen <= depth.Keys
  {
  }

  /** What decides whether a file counts as weakly reached is its nearest evidence and nothing else. */
  lemma {:induction false} WeakIs(w: Wiring, seen: set<string>, via: map<string, Option<Incoming>>,
      depth: map<string, nat>, p: string)
    requires Searched(w, seen, via, depth)
    ensures IsWeak(EvidenceOf(w, seen, depth, p).best) <==> LedByTestText(w, seen, depth, p)
  {
    SearchedIsSourced(w, seen, via, depth);
    BestOverIsBest(w, depth, p, Sorted(seen));
    BestDecides(w, seen, depth, p, BestOver(w, depth, p, Sorted(seen)));
  }

  lemma {:induction false} BestDecides(w: Wiring, seen: set<string>, depth: map<string, nat>, p: string,
      best: Option<Incoming>)
    requires Sourced(seen, depth) && IsBest(w, depth, p, Sorted(seen), best)
    ensures IsWeak(best) <==> LedByTestText(w, seen, depth, p)
  {
    if best.None? {
      NothingNearest(w, seen, depth, p);
    } else if LedByTestText(w, seen, depth, p) {
      LeadIsBest(w, seen, depth, p, best.value);
    } else if IsWeak(best) {
      WeakBestLeads(w, seen, depth, p, best.value);
    }
  }

  lemma {:induction false} NothingNearest(w: Wiring, seen: set<string>, depth: map<string, nat>, p: string)
    requires Sourced(seen, depth) && IsBest(w, depth, p, Sorted(seen), None)
    ensures !LedByTestText(w, seen, depth, p)
  {
    forall e ensures !Nearest(w, seen, depth, p, e) {
      if e.src in seen { assert e.src in Sorted(seen); }
    }
  }

  /** A reached file that is no root has evidence, and the nearest lies one step nearer the roots. */
  lemma {:induction false} NearestIsOneLevelUp(w: Wiring, seen: set<string>, via: map<string, Option<Incoming>>,
      depth: map<string, nat>, p: string) returns (b: Incoming)
    requires Searched(w, seen, via, depth) && p in seen && p !in w.roots
    ensures Nearest(w, seen, depth, p, b) && p in depth && depth[b.src] + 1 == depth[p]
  {
    BestIsOneLevelUp(w, seen, via, depth, p);
    b := BestOver(w, depth, p, Sorted(seen)).value;
    BestIsNearest(w, seen, depth, p, b);
  }

  predicate Declares(entry: Option<Option<Entry>>, status: string) {
    entry.Some? && entry.value.Some? && entry.value.value.status == Some(status)
  }

  lemma {:induction false} PathVerdicts(path: string, entry: Option<Option<Entry>>, ev: Evidence, rnd: Option<int>)
    ensures var all := PathFindings(path, entry, ev, rnd);
            && (Finding(W002, path) in all <==> Declares(entry, "wired") && !ev.reached)
            && (Finding(W003, path) in all
                <==> (Declares(entry, "unwired") || Declares(entry, "manual")) && ev.reached && !IsWeak(ev.best))
            && (Finding(W006, path) in all
                <==> Declares(entry, "wired") && ev.reached && !ev.isRoot && IsWeak(ev.best))
  {
    assert "wired" != "unwired" && "wired" != "manual" by { assert |"wired"| < |"manual"|; }
  }

  /** Unwired, and carried for a whole rotation of six rounds. */
  predicate Carried(entry: Option<Option<Entry>>, rnd: Option<int>) {
    Declares(entry, "unwired") && rnd.Some? && entry.value.value.since.Some?
    && rnd.value >= entry.value.value.since.value + 6
  }

  predicate UnknownStatus(entry: Option<Option<Entry>>) {
    entry.Some? && entry.value.Some? && !Declares(entry, "wired") && !Declares(entry, "unwired")
        && !Declares(entry, "manual")
  }

  lemma {:induction false} PathRemarks(path: string, entry: Option<Option<Entry>>, ev: Evidence, rnd: Option<int>)
    ensures var all := PathFindings(path, entry, ev, rnd);
            && (Finding(W004, path) in all <==> UnknownStatus(entry))
            && (Finding(W005, path) in all <==> Carried(entry, rnd))
  {
    assert "wired" != "unwired" && "wired" != "manual" by { assert |"wired"| < |"manual"|; }
  }

  lemma {:induction false} VerdictIs(co: Checkout, reg: Registry, w: Wiring, seen: set<string>,
      depth: map<string, nat>, rnd: Option<int>, p: string, code: Code)
    requires code != W004
    ensures Finding(code, p) in Findings(co, Some(reg), w, seen, depth, rnd)
       <==> && Eligible(co, Prefixes(Some(reg)), p)
            && Finding(code, p) in PathFindings(p, Get(reg.entries, p), EvidenceOf(w, seen, depth, p), rnd)
  {
    FindingsAre(co, reg, w, seen, depth, rnd, Finding(code, p));
  }

  /** Declared wired and not reachable: exactly then W002. */
  lemma {:induction false} W002Is(co: Checkout, reg: Registry, w: Wiring, seen: set<string>,
      via: map<string, Option<Incoming>>, depth: map<string, nat>, rnd: Option<int>, p: string)
    requires Searched(w, seen, via, depth)
    ensures Finding(W002, p) in Findings(co, Some(reg), w, seen, depth, rnd)
       <==> Eligible(co, Prefixes(Some(reg)), p) && HasStatus(reg, p, "wired") && !w.Reachable(p)
  {
    SearchIsCorrect(w, seen, via, depth, p);
    VerdictIs(co, reg, w, seen, depth, rnd, p, W002);
    PathVerdicts(p, Get(reg.entries, p), EvidenceOf(w, seen, depth, p), rnd);
  }

  /** Declared unwired or manual, reachable, and not led by a test's text: exactly then W003. */
  lemma {:induction false} W003Is(co: Checkout, reg: Registry, w: Wiring, seen: set<string>,
      via: map<string, Option<Incoming>>, depth: map<string, nat>, rnd: Option<int>, p: string)
    requires Searched(w, seen, via, depth)
    ensures Finding(W003, p) in Findings(co, Some(reg), w, seen, depth, rnd)
       <==> && Eligible(co, Prefixes(Some(reg)), p)
            && (HasStatus(reg, p, "unwired") || HasStatus(reg, p, "manual"))
            && w.Reachable(p) && !LedByTestText(w, seen, depth, p)
  {
    SearchIsCorrect(w, seen, via, depth, p);
    VerdictIs(co, reg, w, seen, depth, rnd, p, W003);
    PathVerdicts(p, Get(reg.entries, p), EvidenceOf(w, seen, depth, p), rnd);
    WeakIs(w, seen, via, depth, p);
  }

  /** W004: a prefix that matches nothing tracked, a declared path that does not exist, or an entry point
      with a status that is none of the three. */
  lemma {:induction false} W004Is(co: Checkout, reg: Registry, w: Wiring, seen: set<string>, depth: map<string, nat>,
      rnd: Option<int>, p: string)
    ensures Finding(W004, p) in Findings(co, Some(reg), w, seen, depth, rnd)
       <==> || (p in Prefixes(Some(reg)) && forall t | t in co.tracked :: !StartsWith(t, p))
            || (p in Keys(reg.entries) && p !in co.NodeSet())
            || (Eligible(co, Prefixes(Some(reg)), p) && UnknownStatus(Get(reg.entries, p)))
  {
    FindingsAre(co, reg, w, seen, depth, rnd, Finding(W004, p));
    PathRemarks(p, Get(reg.entries, p), EvidenceOf(w, seen, depth, p), rnd);
  }

  /** W005: an entry point declared unwired for a whole rotation, reachable or not. */
  lemma {:induction false} W005Is(co: Checkout, reg: Registry, w: Wiring, seen: set<string>, depth: map<string, nat>,
      rnd: Option<int>, p: string)
    ensures Finding(W005, p) in Findings(co, Some(reg), w, seen, depth, rnd)
       <==> Eligible(co, Prefixes(Some(reg)), p) && Carried(Get(reg.entries, p), rnd)
  {
    VerdictIs(co, reg, w, seen, depth, rnd, p, W005);
    PathRemarks(p, Get(reg.entries, p), EvidenceOf(w, seen, depth, p), rnd);
  }

  /** Declared wired, reachable, and led by a test's text: exactly then W006. */
  lemma {:induction false} W006Is(co: Checkout, reg: Registry, w: Wiring, seen: set<string>,
      via: map<string, Option<Incoming>>, depth: map<string, nat>, rnd: Option<int>, p: string)
    requires Searched(w, seen, via, depth)
    ensures Finding(W006, p) in Findings(co, Some(reg), w, seen, depth, rnd)
       <==> && Eligible(co, Prefixes(Some(reg)), p) && HasStatus(reg, p, "wired")
            && w.Reachable(p) && p !in w.roots && LedByTestText(w, seen, depth, p)
  {
    SearchIsCorrect(w, seen, via, depth, p);
    VerdictIs(co, reg, w, seen, depth, rnd, p, W006);
    PathVerdicts(p, Get(reg.entries, p), EvidenceOf(w, seen, depth, p), rnd);
    WeakIs(w, seen, via, depth, p);
  }

  /** Evidence that is more than a name in a test's text. */
  ghost predicate HasStrongEvidence(w: Wiring, seen: set<string>, p: string) {
    exists e :: Evident(w, seen, p, e) && !IsWeak(Some(e))
  }

  /** The wording of W006, reached only as text inside a test, fits the files it reports, and no others,
      unless a test's text leads and other evidence lies behind it. */
  lemma {:induction false} WhenOnlyTestText(co: Checkout, reg: Registry, w: Wiring, seen: set<string>,
      via: map<string, Option<Incoming>>, depth: map<string, nat>, rnd: Option<int>, p: string)
    requires Searched(w, seen, via, depth) && w.Reachable(p) && p !in w.roots
    requires Eligible(co, Prefixes(Some(reg)), p) && HasStatus(reg, p, "wired")
    ensures (Finding(W006, p) in Findings(co, Some(reg), w, seen, depth, rnd) <==> OnlyTestText(w, seen, p))
       <==> !(LedByTestText(w, seen, depth, p) && HasStrongEvidence(w, seen, p))
  {
    W006Is(co, reg, w, seen, via, depth, rnd, p);
    SearchIsCorrect(w, seen, via, depth, p);
    OnlyTextLeads(w, seen, via, depth, p);
  }

  lemma {:induction false} OnlyTextLeads(w: Wiring, seen: set<string>, via: map<string, Option<Incoming>>,
      depth: map<string, nat>, p: string)
    requires Searched(w, seen, via, depth) && p in seen && p !in w.roots
    ensures OnlyTestText(w, seen, p) ==> LedByTestText(w, seen, depth, p)
    ensures OnlyTestText(w, seen, p) <==> !HasStrongEvidence(w, seen, p)
  {
    BestIsOneLevelUp(w, seen, via, depth, p);
    SearchedIsSourced(w, seen, via, depth);
    var b := BestOver(w, depth, p, Sorted(seen)).value;
    BestIsNearest(w, seen, depth, p, b);
    if OnlyTestText(w, seen, p) { WeakBestLeads(w, seen, depth, p, b); }
  }

  const EXAMPLE_TEST := "a/tests/t.py"

  /** The driver runs a test that names `x.py` in its text and imports `n.py`, which imports `x.py`. */
  function ExampleRefs(path: string): map<string, Edge> {
    if path == "r.sh" then map[EXAMPLE_TEST := Edge(1, Path)]
    else if path == EXAMPLE_TEST then map["n.py" := Edge(1, Import), "x.py" := Edge(2, Path)]
    else if path == "n.py" then map["x.py" := Edge(1, Import)]
    else map[]
  }

  const EXAMPLE_TREE := {"r.sh", EXAMPLE_TEST, "n.py", "x.py"}

  lemma {:induction false} ExampleIsTest()
    ensures IsTestFile(EXAMPLE_TEST)
  {
    var s := EXAMPLE_TEST;
    assert s[1..] == "/tests/t.py" && "/tests/" <= s[1..];
    assert s[|s| - 3..] == ".py";
  }

  const EXAMPLE_WIRING := Wiring(EXAMPLE_TREE, ["r.sh"], ExampleRefs)
  const EXAMPLE_VIA := map["r.sh" := None, EXAMPLE_TEST := Some(Incoming("r.sh", 1, Path)),
                           "n.py" := Some(Incoming(EXAMPLE_TEST, 1, Import)),
                           "x.py" := Some(Incoming(EXAMPLE_TEST, 2, Path))]
  const EXAMPLE_DEPTH := map["r.sh" := 0, EXAMPLE_TEST := 1, "n.py" := 2, "x.py" := 2]

  lemma {:induction false} ExampleEdges()
    ensures var w := EXAMPLE_WIRING;
            && w.Succ("r.sh") == map[EXAMPLE_TEST := Edge(1, Path)]
            && w.Succ(EXAMPLE_TEST) == map["n.py" := Edge(1, Import), "x.py" := Edge(2, Path)]
            && w.Succ("n.py") == map["x.py" := Edge(1, Import)]
            && w.Succ("x.py") == map[]
  {
  }

  lemma {:induction false} ExampleIsSearched()
    ensures Searched(EXAMPLE_WIRING, EXAMPLE_TREE, EXAMPLE_VIA, EXAMPLE_DEPTH)
  {
    ExampleIsParented();
    ExampleIsClosed();
  }

  lemma {:induction false} ExampleIsParented()
    ensures Parented(EXAMPLE_WIRING, EXAMPLE_VIA, EXAMPLE_DEPTH)
  {
    ExampleEdges();
  }

  lemma {:induction false} ExampleIsClosed()
    ensures forall p, t {:trigger t in EXAMPLE_WIRING.Succ(p)} | p in EXAMPLE_DEPTH && t in EXAMPLE_WIRING.Succ(p)
              :: t in EXAMPLE_DEPTH && EXAMPLE_DEPTH[t] <= EXAMPLE_DEPTH[p] + 1
  {
    ExampleEdges();
  }

  lemma {:induction false} ExampleIsLed()
    ensures LedByTestText(EXAMPLE_WIRING, EXAMPLE_TREE, EXAMPLE_DEPTH, "x.py")
    ensures !OnlyTestText(EXAMPLE_WIRING, EXAMPLE_TREE, "x.py")
  {
    var w := EXAMPLE_WIRING;
    ExampleEdges();
    ExampleIsTest();
    var named, imported := Incoming(EXAMPLE_TEST, 2, Path), Incoming("n.py", 1, Import);
    assert Evident(w, EXAMPLE_TREE, "x.py", imported) && !IsWeak(Some(imported));
    assert Nearest(w, EXAMPLE_TREE, EXAMPLE_DEPTH, "x.py", named) && IsWeak(Some(named));
    assert FirstText(w, EXAMPLE_TREE, EXAMPLE_DEPTH, "x.py", named);
  }

  /** In a checkout of that tree, `x.py` is an entry point. */
  const EXAMPLE_CHECKOUT := Checkout(EXAMPLE_TREE, (p: string) => true)

  function ExampleRegistry(status: string): Registry {
    Registry([], [], [("x.py", Some(Entry(Some(status), None, None, None, None)))])
  }

  lemma {:induction false} ExampleIsDeclared(status: string)
    ensures Eligible(EXAMPLE_CHECKOUT, Prefixes(Some(ExampleRegistry(status))), "x.py")
    ensures HasStatus(ExampleRegistry(status), "x.py", status)
  {
    var p := "x.py";
    assert p[|p| - 3..] == ".py";
  }

  /** So the wording of W006 is wrong of a file that a reached module imports; and were that file declared
      unwired, W003 would be silent, because a test nearer the root names it. */
  lemma {:induction false} NearTextHidesImport(rnd: Option<int>)
    ensures Searched(EXAMPLE_WIRING, EXAMPLE_TREE, EXAMPLE_VIA, EXAMPLE_DEPTH)
    ensures !OnlyTestText(EXAMPLE_WIRING, EXAMPLE_TREE, "x.py")
    ensures Finding(W006, "x.py") in Findings(EXAMPLE_CHECKOUT, Some(ExampleRegistry("wired")), EXAMPLE_WIRING,
                                              EXAMPLE_TREE, EXAMPLE_DEPTH, rnd)
    ensures Finding(W003, "x.py") !in Findings(EXAMPLE_CHECKOUT, Some(ExampleRegistry("unwired")), EXAMPLE_WIRING,
                                               EXAMPLE_TREE, EXAMPLE_DEPTH, rnd)
  {
    ExampleIsSearched();
    ExampleIsLed();
    ExampleIsDeclared("wired");
    LedVerdicts(EXAMPLE_CHECKOUT, ExampleRegistry("wired"), ExampleRegistry("unwired"), EXAMPLE_WIRING, EXAMPLE_TREE,
                EXAMPLE_VIA, EXAMPLE_DEPTH, rnd, "x.py");
  }

  lemma {:induction false} LedVerdicts(co: Checkout, reg: Registry, reg': Registry, w: Wiring, seen: set<string>,
      via: map<string, Option<Incoming>>, depth: map<string, nat>, rnd: Option<int>, p: string)
    requires Searched(w, seen, via, depth) && p in seen && p !in w.roots && LedByTestText(w, seen, depth, p)
    requires Eligible(co, Prefixes(Some(reg)), p) && HasStatus(reg, p, "wired")
    ensures Finding(W006, p) in Findings(co, Some(reg), w, seen, depth, rnd)
    ensures Finding(W003, p) !in Findings(co, Some(reg'), w, seen, depth, rnd)
  {
    SearchIsCorrect(w, seen, via, depth, p);
    W006Is(co, reg, w, seen, via, depth, rnd, p);
    W003Is(co, reg', w, seen, via, depth, rnd, p);
  }

  lemma {:induction false} UndeclaredIs(co: Checkout, reg: Registry, p: string)
    ensures p in Undeclared(co, None, Some(reg))
            <==> Eligible(co, Prefixes(Some(reg)), p) && Get(reg.entries, p) == None
  {
  }

  /** Restricted to some paths, the fast scan lists those of them it lists anyway. */
  lemma {:induction false} UndeclaredAmong(co: Checkout, paths: set<string>, reg: Option<Registry>, p: string)
    ensures p in Undeclared(co, Some(paths), reg) <==> p in paths && p in Undeclared(co, None, reg)
  {
  }

  /** The fast scan against the audit, path by path: they disagree on `p` exactly when `p` is eligible
      and declared as `null`. */
  lemma {:induction false} UndeclaredIsW001(co: Checkout, reg: Registry, w: Wiring, seen: set<string>,
      depth: map<string, nat>, rnd: Option<int>, p: string)
    ensures (p in Undeclared(co, None, Some(reg)) <==> Finding(W001, p) in Findings(co, Some(reg), w, seen, depth, rnd))
       <==> !(Eligible(co, Prefixes(Some(reg)), p) && Get(reg.entries, p) == Some(None))
  {
    W001Is(co, reg, w, seen, depth, rnd, p);
    UndeclaredIs(co, reg, p);
  }

  /** With no registry file they disagree on every entry point: the audit reports only the file. */
  lemma {:induction false} UndeclaredWithoutRegistry(co: Checkout, w: Wiring, seen: set<string>,
      depth: map<string, nat>, rnd: Option<int>, p: string)
    ensures Finding(W001, p) !in Findings(co, None, w, seen, depth, rnd)
    ensures p in Undeclared(co, None, None) <==> Eligible(co, [], p)
  {
  }

  // ------------------------------------------------------------------ propose and declare

  datatype Refusal = AlreadyDeclared | NotTracked | Excluded | NotAnEntryPoint | NotReachable

  datatype Proposal = Proposed(entry: Entry) | Refused(why: Refusal)

  function EdgeLine(line: nat): string {
    if line != 0 then Decimal(line) else "-"
  }

  function KindName(k: Kind): string {
    match k
    case Import => "import"
    case DashM => "dashm"
    case Dir => "dir"
    case Join => "join"
    case Path => "path"
  }

  function Pin(src: string, line: string): string {
    src + ":" + line
  }

  /** The entry the graph can derive, or why it will not. */
  function Propose(co: Checkout, reg: Option<Registry>, w: Wiring, seen: set<string>, depth: map<string, nat>,
      path: string, reason: string): Proposal {
    if reg.Some? && path in Keys(reg.value.entries) then Refused(AlreadyDeclared)
    else if path !in co.NodeSet() then Refused(NotTracked)
    else if IsExcluded(path, Prefixes(reg)) then Refused(Excluded)
    else if !co.IsEntryPoint(path) then Refused(NotAnEntryPoint)
    else if path !in seen then Refused(NotReachable)
    else
      var because := if reason == "" then None else Some(reason);
      match EvidenceOf(w, seen, depth, path).best
      case None => Proposed(Entry(Some("wired"), Some("root"), Some("root"), because, None))
      case Some(b) => Proposed(Entry(Some("wired"), Some(Pin(b.src, EdgeLine(b.line))), Some(KindName(b.kind)),
                                     because, None))
  }

  /** Exactly the undeclared and reachable paths get an entry, and always a wired one. */
  lemma {:induction false} ProposedIsUndeclaredAndReached(co: Checkout, reg: Option<Registry>, w: Wiring,
      seen: set<string>, depth: map<string, nat>, path: string, reason: string)
    ensures Propose(co, reg, w, seen, depth, path, reason).Proposed?
            <==> path in Undeclared(co, None, reg) && path in seen
    ensures Propose(co, reg, w, seen, depth, path, reason).Proposed? ==>
              Propose(co, reg, w, seen, depth, path, reason).entry.status == Some("wired")
  {
  }

  /** What is derived, and why it is refused: the first of five reasons that applies; and an entry's pin, the kind
      beside it and its note come from the best evidence and the reason given. */
  lemma {:induction false} ProposalSays(co: Checkout, reg: Registry, w: Wiring, seen: set<string>,
      depth: map<string, nat>, path: string, reason: string)
    requires seen <= depth.Keys
    ensures var p, best := Propose(co, Some(reg), w, seen, depth, path, reason), Best(w, seen, depth, path);
            var known, node := path in Keys(reg.entries), path in co.NodeSet();
            var excluded, entry := IsExcluded(path, reg.vendored + reg.frozen), co.IsEntryPoint(path);
            && (p == Refused(AlreadyDeclared) <==> known)
            && (p == Refused(NotTracked) <==> !known && !node)
            && (p == Refused(Excluded) <==> !known && node && excluded)
            && (p == Refused(NotAnEntryPoint) <==> !known && node && !excluded && !entry)
            && (p == Refused(NotReachable) <==> !known && node && !excluded && entry && path !in seen)
            && (p.Proposed? ==>
                  && p.entry.status == Some("wired") && p.entry.since == None
                  && p.entry.reason == (if reason == "" then None else Some(reason))
                  && (best.None? ==> p.entry.via == Some("root") && p.entry.viaKind == Some("root"))
                  && (best.Some? ==> p.entry.via == Some(best.value.src + ":" + EdgeLine(best.value.line))
                                     && p.entry.viaKind == Some(KindName(best.value.kind))))
  {
  }

  lemma {:induction false} KindsHaveNames(a: Kind, b: Kind)
    ensures KindName(a) == KindName(b) ==> a == b
  {
    assert |"import"| == 6 && |"dashm"| == 5 && |"dir"| == 3 && |"join"| == 4 && |"path"| == 4
        && "join"[0] != "path"[0];
  }

  /** The registry file on disk. */
  class RegistryFile {
    var contents: Option<Registry>

    constructor (contents: Option<Registry>)
      ensures this.contents == contents
    {
      this.contents := contents;
    }
  }

  datatype Report = Report(added: map<string, Option<Entry>>, refused: seq<string>, wrote: bool)

  function Accepted(co: Checkout, reg: Registry, w: Wiring, seen: set<string>, depth: map<string, nat>,
      paths: seq<string>, reason: string): map<string, Option<Entry>> {
    map p | p in paths && Propose(co, Some(reg), w, seen, depth, p, reason).Proposed?
      :: Some(Propose(co, Some(reg), w, seen, depth, p, reason).entry)
  }

  function RefusedPaths(co: Checkout, reg: Registry, w: Wiring, seen: set<string>, depth: map<string, nat>,
      paths: seq<string>, reason: string): seq<string> {
    FlatMap(paths, p => if Propose(co, Some(reg), w, seen, depth, p, reason).Refused? then [p] else [])
  }

  method ProposeLoop(co: Checkout, reg: Registry, w: Wiring, seen: set<string>, depth: map<string, nat>,
      paths: seq<string>, reason: string)
    returns (added: map<string, Option<Entry>>, refused: seq<string>)
    ensures added == Accepted(co, reg, w, seen, depth, paths, reason)
    ensures refused == RefusedPaths(co, reg, w, seen, depth, paths, reason)
  {
    added, refused := map[], [];
    for i := 0 to |paths|
      invariant added == Accepted(co, reg, w, seen, depth, paths[..i], reason)
      invariant refused == RefusedPaths(co, reg, w, seen, depth, paths[..i], reason)
    {
      TakeStep(paths, i);
      AcceptedStep(co, reg, w, seen, depth, paths, reason, i);
      match Propose(co, Some(reg), w, seen, depth, paths[i], reason) {
        case Proposed(entry) =>
          added := added[paths[i] := Some(entry)];
          assert refused + [] == refused;
        case Refused(_) =>
          refused := refused + [paths[i]];
      }
    }
    TakeAll(paths);
  }

  lemma {:induction false} AcceptedStep(co: Checkout, reg: Registry, w: Wiring, seen: set<string>,
      depth: map<string, nat>, paths: seq<string>, reason: string, i: nat)
    requires i < |paths|
    ensures Accepted(co, reg, w, seen, depth, paths[..i + 1], reason)
         == match Propose(co, Some(reg), w, seen, depth, paths[i], reason)
            case Proposed(entry) => Accepted(co, reg, w, seen, depth, paths[..i], reason)[paths[i] := Some(entry)]
            case Refused(_) => Accepted(co, reg, w, seen, depth, paths[..i], reason)
  {
    TakeStep(paths, i);
  }

  /** The report of a declaration: of the paths asked for, those an entry is derived for, each with it, and the
      others as refused. */
  lemma {:induction false} DeclareSays(co: Checkout, reg: Registry, w: Wiring, seen: set<string>,
      depth: map<string, nat>, paths: seq<string>, reason: string, p: string)
    ensures var added := Accepted(co, reg, w, seen, depth, paths, reason);
            var proposal := Propose(co, Some(reg), w, seen, depth, p, reason);
            && (p in added <==> p in paths && proposal.Proposed?)
            && (p in added ==> added[p] == Some(proposal.entry))
            && (p in RefusedPaths(co, reg, w, seen, depth, paths, reason) <==> p in paths && proposal.Refused?)
  {
    InFlatMap(paths, q => if Propose(co, Some(reg), w, seen, depth, q, reason).Refused? then [q] else [], p);
  }

  function Declared(reg: Registry, added: map<string, Option<Entry>>): Registry {
    reg.(entries := Inserted(reg.entries, added))
  }

  /** Derives entries and, with `write`, stores them. `None` when there is no registry file. */
  method Declare(co: Checkout, file: RegistryFile, g: Graph, paths: seq<string>, reason: string, write: bool)
    returns (report: Option<Report>)
    requires g.Valid() && g.w.nodes == co.NodeSet()
    modifies file, g
    ensures old(file.contents).None? ==> report.None? && file.contents.None?
    ensures old(file.contents).Some? ==>
              && g.Valid() && g.reached.Some? && report.Some?
              && report.value.added
                 == Accepted(co, old(file.contents).value, g.w, g.reached.value, g.depth, paths, reason)
              && report.value.refused
                 == RefusedPaths(co, old(file.contents).value, g.w, g.reached.value, g.depth, paths, reason)
              && report.value.wrote == (write && report.value.added != map[])
              && file.contents == Some(if report.value.wrote then Declared(old(file.contents).value, report.value.added)
                                       else old(file.contents).value)
  {
    if file.contents.None? {
      return None;
    }
    var reg := file.contents.value;
    var seen := g.Closure();
    var added, refused := ProposeLoop(co, reg, g.w, seen, g.depth, paths, reason);
    var wrote := write && added != map[];
    if wrote {
      var entries := InsertEntries(reg.entries, added);
      file.contents := Some(reg.(entries := entries));
    }
    report := Some(Report(added, refused, wrote));
  }

  /** A finding about one path depends on the entries only through the lookup of that path. */
  lemma {:induction false} FindingsFollowLookup(co: Checkout, r1: Registry, r2: Registry, w: Wiring,
      seen: set<string>, depth: map<string, nat>, rnd: Option<int>, f: Finding)
    requires r1.vendored == r2.vendored && r1.frozen == r2.frozen && Get(r1.entries, f.path) == Get(r2.entries, f.path)
    ensures f in Findings(co, Some(r1), w, seen, depth, rnd) <==> f in Findings(co, Some(r2), w, seen, depth, rnd)
  {
    FindingsAre(co, r1, w, seen, depth, rnd, f);
    FindingsAre(co, r2, w, seen, depth, rnd, f);
    assert NodeFindings(co, r1, w, seen, depth, rnd, f.path) == NodeFindings(co, r2, w, seen, depth, rnd, f.path);
    assert f.path in Keys(r1.entries) <==> f.path in Keys(r2.entries);
  }

  /** A file that is a node, reached and declared wired draws no error. */
  lemma {:induction false} WiredAndReachedIsClean(co: Checkout, reg: Registry, w: Wiring, seen: set<string>,
      depth: map<string, nat>, rnd: Option<int>, f: Finding)
    requires f in Findings(co, Some(reg), w, seen, depth, rnd)
    requires f.path in co.NodeSet() && f.path in seen
    requires Get(reg.entries, f.path).Some? && Get(reg.entries, f.path).value.Some?
    requires Get(reg.entries, f.path).value.value.status == Some("wired")
    ensures !IsError(f.code)
  {
    FindingsAre(co, reg, w, seen, depth, rnd, f);
    assert f.path in co.tracked && StartsWith(f.path, f.path);
    assert f in NodeFindings(co, reg, w, seen, depth, rnd, f.path);
    WiredDrawsNoError(f.path, Get(reg.entries, f.path), EvidenceOf(w, seen, depth, f.path), rnd, f);
  }

  lemma {:induction false} WiredDrawsNoError(path: string, entry: Option<Option<Entry>>, ev: Evidence,
      rnd: Option<int>, f: Finding)
    requires entry.Some? && entry.value.Some? && entry.value.value.status == Some("wired") && ev.reached
    requires f in PathFindings(path, entry, ev, rnd)
    ensures !IsError(f.code)
  {
  }

  lemma {:induction false} AcceptedIs(co: Checkout, reg: Registry, w: Wiring, seen: set<string>,
      depth: map<string, nat>, paths: seq<string>, reason: string, p: string)
    ensures var added := Accepted(co, reg, w, seen, depth, paths, reason);
            && added.Keys !! Keys(reg.entries)
            && (p in added ==> && p in co.NodeSet() && p in seen
                               && added[p].Some? && added[p].value.status == Some("wired"))
  {
  }

  /** After a write, no declared path is an error. */
  lemma {:induction false} DeclaredAuditsClean(co: Checkout, reg: Registry, w: Wiring, seen: set<string>,
      depth: map<string, nat>, paths: seq<string>, reason: string, rnd: Option<int>, f: Finding)
    requires IsDict(reg.entries)
    requires var added := Accepted(co, reg, w, seen, depth, paths, reason);
             f.path in added && f in Findings(co, Some(Declared(reg, added)), w, seen, depth, rnd)
    ensures !IsError(f.code)
  {
    var added := Accepted(co, reg, w, seen, depth, paths, reason);
    AcceptedIs(co, reg, w, seen, depth, paths, reason, f.path);
    InsertedGet(reg.entries, added, f.path);
    WiredAndReachedIsClean(co, Declared(reg, added), w, seen, depth, rnd, f);
  }

  /** And the write changes no finding about any other path. */
  lemma {:induction false} DeclaringLeavesOthers(co: Checkout, reg: Registry, w: Wiring, seen: set<string>,
      depth: map<string, nat>, added: map<string, Option<Entry>>, rnd: Option<int>, f: Finding)
    requires IsDict(reg.entries) && Keys(reg.entries) !! added.Keys && f.path !in added
    ensures f in Findings(co, Some(Declared(reg, added)), w, seen, depth, rnd)
            <==> f in Findings(co, Some(reg), w, seen, depth, rnd)
  {
    InsertedGet(reg.entries, added, f.path);
    FindingsFollowLookup(co, reg, Declared(reg, added), w, seen, depth, rnd, f);
  }
}
