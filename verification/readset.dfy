/** harness/readset.py: which test nodes a set of changed paths can affect. */
module ReadSet {
  import opened Text
  import opened Seqs
  import opened Order

  // ------------------------------------------------------------------ paths

  function RStrip(p: string): (r: string)
    ensures r <= p
  {
    if p != "" && p[|p| - 1] == '/' then RStrip(p[..|p| - 1]) else p
  }

  /** Everything before the last slash, that slash included. */
  function Head(p: string): (r: string)
    ensures r <= p && (r == "" || r[|r| - 1] == '/')
  {
    if p == "" || p[|p| - 1] == '/' then p else Head(p[..|p| - 1])
  }

  /** `os.path.dirname` of a relative path. */
  function Dirname(p: string): (r: string)
    requires Relative(p)
    ensures Relative(r) && (p != "" ==> |r| < |p|)
  {
    RStrip(Head(p))
  }

  predicate Relative(p: string) {
    p == "" || p[0] != '/'
  }

  /** The directories strictly above the path's own parent, nearest first, without the root. */
  function Ancestors(d: string): seq<string>
    requires Relative(d)
    decreases |d|
  {
    if d == "" then [] else [d] + Ancestors(Dirname(d))
  }

  method ScanAncestors(path: string) returns (out: seq<string>)
    requires Relative(path)
    ensures out == Ancestors(Dirname(Dirname(path)))
  {
    out := [];
    var d := Dirname(Dirname(path));
    while d != ""
      invariant Relative(d)
      invariant out + Ancestors(d) == Ancestors(Dirname(Dirname(path)))
      decreases |d|
    {
      out := out + [d];
      d := Dirname(d);
    }
  }

  /** A path as git writes it: no empty component. */
  ghost predicate Normal(p: string) {
    && Relative(p) && (p != "" ==> p[|p| - 1] != '/')
    && forall i | 0 < i < |p| :: !TwoSlashes(p, i)
  }

  predicate TwoSlashes(p: string, i: int)
    requires 0 < i < |p|
  {
    p[i - 1] == '/' && p[i] == '/'
  }

  /** `d` is a directory, not the root, with `p` somewhere below it. */
  predicate Above(d: string, p: string) {
    d != "" && |d| < |p| && p[..|d|] == d && p[|d|] == '/'
  }

  lemma {:induction false} HeadSplits(p: string)
    ensures forall k | |Head(p)| <= k < |p| :: p[k] != '/'
  {
    if p != "" && p[|p| - 1] != '/' {
      HeadSplits(p[..|p| - 1]);
    }
  }

  /** The parent of a normal path is what precedes its last slash. */
  lemma {:induction false} DirnameSplits(p: string)
    requires Normal(p)
    ensures var d := Dirname(p);
            && Normal(d)
            && ('/' !in p ==> d == "")
            && ('/' in p ==> d != "" && Above(d, p) && forall k | |d| < k < |p| :: p[k] != '/')
  {
    var h := Head(p);
    HeadSplits(p);
    if h != "" {
      var n := |h| - 1;
      assert p[n] == '/' && n > 0;
      assert !TwoSlashes(p, n);
      forall i | 0 < i < n ensures !TwoSlashes(p[..n], i) { assert !TwoSlashes(p, i); }
      assert h[..n] == p[..n] && RStrip(h) == p[..n];
    }
  }

  /** What lies above a path lies above its parent, or is its parent. */
  lemma {:induction false} AboveParent(d: string, p: string)
    requires Normal(p)
    ensures Above(d, p) <==> Dirname(p) != "" && (d == Dirname(p) || Above(d, Dirname(p)))
  {
    DirnameSplits(p);
    var q := Dirname(p);
    if Above(d, p) {
      assert p[|d|] in p;
      if |d| == |q| { assert d == q; }
      if |d| < |q| { assert q[..|d|] == p[..|q|][..|d|] == d; }
    }
    if q != "" && Above(d, q) {
      assert p[..|d|] == p[..|q|][..|d|];
    }
  }

  /** The climb lists exactly the directories above the path. */
  lemma {:induction false} AncestorsAre(p: string, d: string)
    requires Normal(p)
    ensures Normal(Dirname(p)) && (d in Ancestors(Dirname(p)) <==> Above(d, p))
    decreases |p|
  {
    DirnameSplits(p);
    AboveParent(d, p);
    if Dirname(p) != "" {
      AncestorsAre(Dirname(p), d);
    }
  }

  // ------------------------------------------------------------------ what a change implicates

  /** What one test node read and listed. */
  datatype Entry = Entry(files: set<string>, scans: set<string>)

  type Nodes = map<string, Entry>

  datatype Reason = Read | Scan | ScanTree

  datatype Hit = Hit(path: string, reason: Reason, via: Option<string>)

  datatype Row = Row(key: string, file: string, hits: seq<Hit>)

  function Parent(p: string): string
    requires Relative(p)
  {
    if Dirname(p) == "" then "." else Dirname(p)
  }

  function FirstIn(dirs: seq<string>, scans: set<string>): (d: Option<string>)
    ensures d.Some? ==> d.value in dirs && d.value in scans
    ensures d.None? ==> forall x | x in dirs :: x !in scans
  {
    if dirs == [] then None
    else if dirs[0] in scans then Some(dirs[0])
    else FirstIn(dirs[1..], scans)
  }

  function HitFor(p: string, e: Entry, treeScan: bool): Option<Hit>
    requires Relative(p)
  {
    if p in e.files then Some(Hit(p, Read, None))
    else if Parent(p) in e.scans then Some(Hit(p, Scan, None))
    else if treeScan then
      var via := FirstIn(Ancestors(Dirname(Dirname(p))), e.scans);
      if via.Some? then Some(Hit(p, ScanTree, via)) else None
    else None
  }

  predicate AllRelative(paths: seq<string>) {
    forall p | p in paths :: Relative(p)
  }

  function Hits(paths: seq<string>, e: Entry, treeScan: bool): seq<Hit>
    requires AllRelative(paths)
  {
    if paths == [] then []
    else
      var n := |paths| - 1;
      var hit := HitFor(paths[n], e, treeScan);
      Hits(paths[..n], e, treeScan) + if hit.Some? then [hit.value] else []
  }

  /** The rows of some keys, in their order. */
  function Rows(keys: seq<string>, nodes: Nodes, paths: seq<string>, treeScan: bool, fileOf: string -> string): seq<Row>
    requires AllRelative(paths) && forall k | k in keys :: k in nodes
  {
    if keys == [] then []
    else
      var n := |keys| - 1;
      Rows(keys[..n], nodes, paths, treeScan, fileOf) + RowFor(keys[n], nodes[keys[n]], paths, treeScan, fileOf)
  }

  function RowFor(k: string, e: Entry, paths: seq<string>, treeScan: bool, fileOf: string -> string): seq<Row>
    requires AllRelative(paths)
  {
    var hits := Hits(paths, e, treeScan);
    if hits == [] then [] else [Row(k, fileOf(k), hits)]
  }

  lemma {:induction false} RowsStep(keys: seq<string>, i: nat, nodes: Nodes, paths: seq<string>, treeScan: bool,
      fileOf: string -> string)
    requires AllRelative(paths) && i < |keys| && forall k | k in keys :: k in nodes
    ensures keys[i] in nodes
    ensures Rows(keys[..i + 1], nodes, paths, treeScan, fileOf)
         == Rows(keys[..i], nodes, paths, treeScan, fileOf) + RowFor(keys[i], nodes[keys[i]], paths, treeScan, fileOf)
  {
    assert keys[i] in keys;
    TakeStep(keys, i);
  }

  method Implicated(paths: seq<string>, nodes: Nodes, treeScan: bool, fileOf: string -> string) returns (rows: seq<Row>)
    requires AllRelative(paths)
    ensures rows == Rows(Sorted(nodes.Keys), nodes, paths, treeScan, fileOf)
  {
    rows := [];
    var keys := Sorted(nodes.Keys);
    for i := 0 to |keys|
      invariant rows == Rows(keys[..i], nodes, paths, treeScan, fileOf)
    {
      RowsStep(keys, i, nodes, paths, treeScan, fileOf);
      var hits := FindHits(paths, nodes[keys[i]], treeScan);
      if hits != [] {
        rows := rows + [Row(keys[i], fileOf(keys[i]), hits)];
      }
    }
    TakeAll(keys);
  }

  method FindHits(paths: seq<string>, e: Entry, treeScan: bool) returns (hits: seq<Hit>)
    requires AllRelative(paths)
    ensures hits == Hits(paths, e, treeScan)
  {
    hits := [];
    for i := 0 to |paths|
      invariant hits == Hits(paths[..i], e, treeScan)
    {
      TakeStep(paths, i);
      var p := paths[i];
      assert p in paths;
      if p in e.files {
        hits := hits + [Hit(p, Read, None)];
      } else if Parent(p) in e.scans {
        hits := hits + [Hit(p, Scan, None)];
      } else if treeScan {
        var ancestors := ScanAncestors(p);
        var via := FirstIn(ancestors, e.scans);
        if via.Some? {
          hits := hits + [Hit(p, ScanTree, via)];
        }
      }
    }
    TakeAll(paths);
  }

  // ------------------------------------------------------------------ what counts as covered

  /** The node read the path, or listed a directory above it, or it is a top-level path and the node
      listed the root. */
  ghost predicate Covers(e: Entry, p: string) {
    p in e.files || (exists d :: d in e.scans && Above(d, p)) || ('/' !in p && "." in e.scans)
  }

  /** A changed path implicates a node exactly when the node's evidence covers it: a directory at any
      depth above it, new or not, but the root only for what is directly inside. */
  lemma {:induction false} HitMeansCovered(p: string, e: Entry)
    requires Normal(p)
    ensures HitFor(p, e, true).Some? <==> Covers(e, p)
  {
    DirnameSplits(p);
    var q := Dirname(p);
    forall d ensures Above(d, p) <==> (d == q && q != "") || d in Ancestors(Dirname(q)) {
      AboveParent(d, p);
      if q != "" { AncestorsAre(q, d); }
    }
  }

  /** The tree rule only adds: it leaves every earlier hit as it was, and what it adds says so. */
  lemma {:induction false} TreeScanOnlyAdds(paths: seq<string>, e: Entry)
    requires AllRelative(paths)
    ensures Hits(paths, e, false) == WithoutTree(Hits(paths, e, true))
  {
    if paths != [] {
      var n := |paths| - 1;
      TreeScanOnlyAdds(paths[..n], e);
      var before := Hits(paths[..n], e, true);
      if Hits(paths, e, true) != before {
        assert Hits(paths, e, true)[..|before|] == before;
      }
    }
  }

  function WithoutTree(hits: seq<Hit>): seq<Hit> {
    if hits == [] then []
    else
      var n := |hits| - 1;
      WithoutTree(hits[..n]) + if hits[n].reason == ScanTree then [] else [hits[n]]
  }

  lemma {:induction false} HitsAre(paths: seq<string>, e: Entry, treeScan: bool)
    requires AllRelative(paths)
    ensures Hits(paths, e, treeScan) != [] <==> exists p :: p in paths && HitFor(p, e, treeScan).Some?
  {
    if paths != [] {
      var n := |paths| - 1;
      HitsAre(paths[..n], e, treeScan);
      assert paths == paths[..n] + [paths[n]] && paths[n] in paths;
    }
  }

  /** A node is affected by a change if some changed path hits it. */
  ghost predicate Affected(nodes: Nodes, k: string, paths: seq<string>, treeScan: bool)
    requires AllRelative(paths)
  {
    k in nodes && Hits(paths, nodes[k], treeScan) != []
  }

  ghost predicate HasRow(rows: seq<Row>, k: string) {
    exists i :: 0 <= i < |rows| && rows[i].key == k
  }

  lemma {:induction false} HasRowStep(rows: seq<Row>, row: Row, k: string)
    ensures HasRow(rows + [row], k) <==> HasRow(rows, k) || row.key == k
    ensures HasRow(rows + [], k) <==> HasRow(rows, k)
  {
    assert rows + [] == rows && (rows + [row])[|rows|] == row;
    assert forall i | 0 <= i < |rows| :: (rows + [row])[i] == rows[i];
  }

  /** The rows are those of the affected keys. */
  lemma {:induction false} RowsAre(keys: seq<string>, nodes: Nodes, paths: seq<string>, treeScan: bool,
      fileOf: string -> string, k: string)
    requires AllRelative(paths) && forall x | x in keys :: x in nodes
    ensures HasRow(Rows(keys, nodes, paths, treeScan, fileOf), k) <==> k in keys && Affected(nodes, k, paths, treeScan)
  {
    if keys != [] {
      var n := |keys| - 1;
      RowsAre(keys[..n], nodes, paths, treeScan, fileOf, k);
      assert k in keys <==> k in keys[..n] || k == keys[n] by { assert keys == keys[..n] + [keys[n]]; }
      var hits := Hits(paths, nodes[keys[n]], treeScan);
      HasRowStep(Rows(keys[..n], nodes, paths, treeScan, fileOf), Row(keys[n], fileOf(keys[n]), hits), k);
    }
  }

  /** What a hit says: the path was read; or its parent was listed; or, when neither, a directory further up was,
      and the hit names the nearest such. */
  lemma {:induction false} HitSays(p: string, e: Entry, treeScan: bool)
    requires Relative(p)
    ensures var hit, above := HitFor(p, e, treeScan), Ancestors(Dirname(Dirname(p)));
            && (hit == Some(Hit(p, Read, None)) <==> p in e.files)
            && (hit == Some(Hit(p, Scan, None)) <==> p !in e.files && Parent(p) in e.scans)
            && (hit.Some? && hit.value.reason == ScanTree <==>
                  treeScan && p !in e.files && Parent(p) !in e.scans && exists d :: d in above && d in e.scans)
            && (hit.Some? && hit.value.reason == ScanTree ==>
                  exists i :: 0 <= i < |above| && hit == Some(Hit(p, ScanTree, Some(above[i]))) && above[i] in e.scans
                              && forall j | 0 <= j < i :: above[j] !in e.scans)
  {
    FirstInIs(Ancestors(Dirname(Dirname(p))), e.scans);
  }

  lemma {:induction false} FirstInIs(dirs: seq<string>, scans: set<string>)
    ensures FirstIn(dirs, scans).Some? <==> exists d :: d in dirs && d in scans
    ensures FirstIn(dirs, scans).Some? ==>
              exists i :: 0 <= i < |dirs| && FirstIn(dirs, scans) == Some(dirs[i]) && dirs[i] in scans
                          && forall j | 0 <= j < i :: dirs[j] !in scans
  {
    if dirs != [] {
      assert dirs == [dirs[0]] + dirs[1..];
      if dirs[0] in scans {
        assert dirs[0] in dirs;
      } else {
        FirstInIs(dirs[1..], scans);
        if FirstIn(dirs[1..], scans).Some? {
          var i :| 0 <= i < |dirs| - 1 && FirstIn(dirs[1..], scans) == Some(dirs[1..][i]) && dirs[1..][i] in scans
                   && forall j | 0 <= j < i :: dirs[1..][j] !in scans;
          assert dirs[i + 1] == dirs[1..][i];
          forall j | 0 <= j < i + 1 ensures dirs[j] !in scans {
            if j > 0 { assert dirs[1..][j - 1] !in scans; }
          }
        }
      }
    }
  }

  /** The hits of a list of paths are those of its parts in order: one for each path that has one. */
  lemma {:induction false} HitsInOrder(a: seq<string>, b: seq<string>, e: Entry, treeScan: bool)
    requires AllRelative(a) && AllRelative(b)
    ensures AllRelative(a + b) && Hits(a + b, e, treeScan) == Hits(a, e, treeScan) + Hits(b, e, treeScan)
  {
    if b == [] {
      assert a + b == a;
    } else {
      assert (a + b)[..|a + b| - 1] == a + b[..|b| - 1];
      HitsInOrder(a, b[..|b| - 1], e, treeScan);
    }
  }

  lemma {:induction false} OneHit(p: string, e: Entry, treeScan: bool)
    requires Relative(p)
    ensures Hits([p], e, treeScan) == match HitFor(p, e, treeScan) case Some(h) => [h] case None => []
  {
    assert [p][..0] == [];
    assert Hits([p][..0], e, treeScan) == [];
  }

  /** A row holds all the hits of its node, and the file the node is in; rows come in the order of the keys. */
  lemma {:induction false} RowSays(keys: seq<string>, nodes: Nodes, paths: seq<string>, treeScan: bool,
      fileOf: string -> string, r: Row)
    requires AllRelative(paths) && forall x | x in keys :: x in nodes
    ensures r in Rows(keys, nodes, paths, treeScan, fileOf)
       <==> && r.key in keys && r.hits == Hits(paths, nodes[r.key], treeScan) && r.hits != []
            && r.file == fileOf(r.key)
  {
    if keys != [] {
      var n := |keys| - 1;
      RowSays(keys[..n], nodes, paths, treeScan, fileOf, r);
      assert r.key in keys <==> r.key in keys[..n] || r.key == keys[n] by { assert keys == keys[..n] + [keys[n]]; }
    }
  }

  // ------------------------------------------------------------------ merging maps

  datatype Recording = Recording(nodes: Nodes, roster: set<string>, head: string, events: nat, kept: nat, dropped: nat)

  function EntryOf(nodes: Nodes, k: string): Entry {
    if k in nodes then nodes[k] else Entry({}, {})
  }

  function Both(a: Entry, b: Entry): Entry {
    Entry(a.files + b.files, a.scans + b.scans)
  }

  function MergeNodes(a: Nodes, b: Nodes): Nodes {
    map k | k in a.Keys + b.Keys :: Both(EntryOf(a, k), EntryOf(b, k))
  }

  function NodesOver(maps: seq<Recording>): Nodes {
    if maps == [] then map[] else MergeNodes(NodesOver(maps[..|maps| - 1]), maps[|maps| - 1].nodes)
  }

  function Heads(maps: seq<Recording>): set<string> {
    set m | m in maps :: m.head
  }

  function Total(maps: seq<Recording>, f: Recording -> nat): nat {
    if maps == [] then 0 else Total(maps[..|maps| - 1], f) + f(maps[|maps| - 1])
  }

  function Rosters(maps: seq<Recording>): set<string> {
    if maps == [] then {} else Rosters(maps[..|maps| - 1]) + maps[|maps| - 1].roster
  }

  /** The merge once the keys in `done` have been taken from `b`. */
  function MergeSome(a: Nodes, b: Nodes, done: set<string>): Nodes {
    map k | k in a.Keys + done :: if k in done then Both(EntryOf(a, k), EntryOf(b, k)) else EntryOf(a, k)
  }

  lemma {:induction false} MergeKey(a: Nodes, b: Nodes, done: set<string>, k: string)
    requires k !in done && k in b
    ensures MergeSome(a, b, done + {k}) == AddEntry(MergeSome(a, b, done), k, b[k])
  {
  }

  lemma {:induction false} MergeEnds(a: Nodes, b: Nodes)
    ensures MergeSome(a, b, {}) == a && MergeSome(a, b, b.Keys) == MergeNodes(a, b)
  {
    var none, all, merged := MergeSome(a, b, {}), MergeSome(a, b, b.Keys), MergeNodes(a, b);
    forall k | k in a ensures none[k] == a[k] {
    }
    assert none.Keys == a.Keys;
    forall k | k in all ensures all[k] == merged[k] {
      if k !in b { NothingToAdd(a, b, k); }
    }
    assert all.Keys == merged.Keys;
  }

  lemma {:induction false} NothingToAdd(a: Nodes, b: Nodes, k: string)
    requires k !in b
    ensures Both(EntryOf(a, k), EntryOf(b, k)) == EntryOf(a, k)
  {
  }

  lemma {:induction false} MergeStep(a: Nodes, b: Nodes, left: set<string>, k: string)
    requires left <= b.Keys && k in left
    ensures AddEntry(MergeSome(a, b, b.Keys - left), k, b[k]) == MergeSome(a, b, b.Keys - (left - {k}))
  {
    MergeKey(a, b, b.Keys - left, k);
    assert b.Keys - (left - {k}) == (b.Keys - left) + {k};
  }

  lemma {:induction false} MergeStarts(a: Nodes, b: Nodes)
    ensures MergeSome(a, b, b.Keys - b.Keys) == a && MergeSome(a, b, b.Keys - {}) == MergeNodes(a, b)
  {
    assert b.Keys - b.Keys == {} && b.Keys - {} == b.Keys;
    MergeEnds(a, b);
  }

  method MergeOne(a: Nodes, b: Nodes) returns (nodes: Nodes)
    ensures nodes == MergeNodes(a, b)
  {
    MergeStarts(a, b);
    nodes := a;
    var left := b.Keys;
    while left != {}
      invariant left <= b.Keys && nodes == MergeSome(a, b, b.Keys - left)
      decreases |left|
    {
      var k :| k in left;
      MergeStep(a, b, left, k);
      nodes := AddEntry(nodes, k, b[k]);
      left := left - {k};
    }
  }

  /** `cur = nodes.setdefault(k, ...)`, then both unions. */
  function AddEntry(nodes: Nodes, k: string, e: Entry): Nodes {
    nodes[k := Both(EntryOf(nodes, k), e)]
  }

  /** The one head, if all agree; otherwise none. */
  function SharedHead(heads: set<string>): string {
    if |heads| == 1 then Sorted(heads)[0] else ""
  }

  method MergeMaps(maps: seq<Recording>) returns (r: Recording)
    ensures r.nodes == NodesOver(maps) && r.roster == Rosters(maps) && r.head == SharedHead(Heads(maps))
    ensures r.events == Total(maps, (m: Recording) => m.events)
    ensures r.kept == Total(maps, (m: Recording) => m.kept)
    ensures r.dropped == Total(maps, (m: Recording) => m.dropped)
  {
    var nodes: Nodes, roster: set<string>, heads: set<string> := map[], {}, {};
    var events, kept, dropped := 0, 0, 0;
    for i := 0 to |maps|
      invariant nodes == NodesOver(maps[..i]) && roster == Rosters(maps[..i]) && heads == Heads(maps[..i])
      invariant events == Total(maps[..i], (m: Recording) => m.events)
      invariant kept == Total(maps[..i], (m: Recording) => m.kept)
      invariant dropped == Total(maps[..i], (m: Recording) => m.dropped)
    {
      TakeStep(maps, i);
      HeadsStep(maps, i);
      var m := maps[i];
      nodes := MergeOne(nodes, m.nodes);
      roster := roster + m.roster;
      heads := heads + {m.head};
      events, kept, dropped := events + m.events, kept + m.kept, dropped + m.dropped;
    }
    TakeAll(maps);
    r := Recording(nodes, roster, SharedHead(heads), events, kept, dropped);
  }

  lemma {:induction false} HeadsStep(maps: seq<Recording>, i: nat)
    requires i < |maps|
    ensures Heads(maps[..i + 1]) == Heads(maps[..i]) + {maps[i].head}
  {
    TakeStep(maps, i);
  }

  /** A merged map claims a head exactly when it has parts and every part was recorded at that head. */
  lemma {:induction false} HeadIsShared(maps: seq<Recording>, head: string)
    requires head != ""
    ensures SharedHead(Heads(maps)) == head <==> maps != [] && forall m | m in maps :: m.head == head
  {
    var heads := Heads(maps);
    if SharedHead(heads) == head {
      assert Sorted(heads)[0] in Sorted(heads);
      forall m | m in maps ensures m.head == head {
        OneElement(heads, head, m.head);
      }
    } else if maps != [] && forall m | m in maps :: m.head == head {
      assert maps[0] in maps;
      assert heads == {head};
      assert Sorted(heads)[0] in Sorted(heads);
    }
  }

  lemma {:induction false} OneElement(s: set<string>, a: string, b: string)
    requires |s| == 1 && a in s && b in s
    ensures a == b
  {
    assert |s - {a}| == 0;
    assert b in s - {a} <==> b != a;
  }

  /** The roster of a merged map is what any part lists, and its counters are the parts' sums. */
  lemma {:induction false} MergeAddsUp(a: seq<Recording>, b: seq<Recording>, f: Recording -> nat, x: string)
    ensures x in Rosters(a) <==> exists m :: m in a && x in m.roster
    ensures Total(a + b, f) == Total(a, f) + Total(b, f) && forall m :: Total([m], f) == f(m)
  {
    RosterIs(a, x);
    TotalConcat(a, b, f);
    forall m ensures Total([m], f) == f(m) {
      assert [m][..0] == [];
    }
  }

  lemma {:induction false} RosterIs(maps: seq<Recording>, x: string)
    ensures x in Rosters(maps) <==> exists m :: m in maps && x in m.roster
  {
    if maps != [] {
      var n := |maps| - 1;
      RosterIs(maps[..n], x);
      assert maps == maps[..n] + [maps[n]] && maps[n] in maps;
    }
  }

  lemma {:induction false} TotalConcat(a: seq<Recording>, b: seq<Recording>, f: Recording -> nat)
    ensures Total(a + b, f) == Total(a, f) + Total(b, f)
  {
    if b == [] {
      assert a + b == a;
    } else {
      assert (a + b)[..|a + b| - 1] == a + b[..|b| - 1];
      TotalConcat(a, b[..|b| - 1], f);
    }
  }

  /** How strong a reason is: `read` over `scan` over `scan-tree` over none. */
  function Rank(hit: Option<Hit>): nat {
    match hit
    case None => 0
    case Some(h) => if h.reason == ScanTree then 1 else if h.reason == Scan then 2 else 3
  }

  /** A merged node gives a path the strongest of the reasons its parts give. */
  lemma {:induction false} MergedReason(p: string, a: Entry, b: Entry, treeScan: bool)
    requires Relative(p)
    ensures Rank(HitFor(p, Both(a, b), treeScan))
         == if Rank(HitFor(p, a, treeScan)) >= Rank(HitFor(p, b, treeScan)) then Rank(HitFor(p, a, treeScan))
            else Rank(HitFor(p, b, treeScan))
  {
    var above := Ancestors(Dirname(Dirname(p)));
    FirstOfUnion(above, a.scans, b.scans);
  }

  lemma {:induction false} FirstOfUnion(dirs: seq<string>, a: set<string>, b: set<string>)
    ensures FirstIn(dirs, a + b).Some? <==> FirstIn(dirs, a).Some? || FirstIn(dirs, b).Some?
  {
    if dirs != [] { FirstOfUnion(dirs[1..], a, b); }
  }

  lemma {:induction false} NothingHit(paths: seq<string>, treeScan: bool)
    requires AllRelative(paths)
    ensures Hits(paths, Entry({}, {}), treeScan) == []
  {
    if paths != [] { NothingHit(paths[..|paths| - 1], treeScan); }
  }

  lemma {:induction false} BothHit(paths: seq<string>, a: Entry, b: Entry, treeScan: bool)
    requires AllRelative(paths)
    ensures Hits(paths, Both(a, b), treeScan) != []
            <==> Hits(paths, a, treeScan) != [] || Hits(paths, b, treeScan) != []
  {
    HitsAre(paths, Both(a, b), treeScan);
    HitsAre(paths, a, treeScan);
    HitsAre(paths, b, treeScan);
    forall p | p in paths
      ensures HitFor(p, Both(a, b), treeScan).Some? <==> HitFor(p, a, treeScan).Some? || HitFor(p, b, treeScan).Some?
    {
      MergedReason(p, a, b, treeScan);
    }
  }

  /** Merging commutes with the blast radius: a merged map affects what any of its parts affects. */
  lemma {:induction false} MergeCommutesWithBlast(maps: seq<Recording>, k: string, paths: seq<string>, treeScan: bool)
    requires AllRelative(paths)
    ensures Affected(NodesOver(maps), k, paths, treeScan)
            <==> exists m :: m in maps && Affected(m.nodes, k, paths, treeScan)
  {
    if maps != [] {
      var n := |maps| - 1;
      var a, b := NodesOver(maps[..n]), maps[n].nodes;
      MergeCommutesWithBlast(maps[..n], k, paths, treeScan);
      SomeAffectedStep(maps, k, paths, treeScan);
      BothAffected(a, b, k, paths, treeScan);
    }
  }

  lemma {:induction false} SomeAffectedStep(maps: seq<Recording>, k: string, paths: seq<string>, treeScan: bool)
    requires AllRelative(paths) && maps != []
    ensures var n := |maps| - 1;
            (exists m :: m in maps && Affected(m.nodes, k, paths, treeScan))
            <==> (exists m :: m in maps[..n] && Affected(m.nodes, k, paths, treeScan))
                 || Affected(maps[n].nodes, k, paths, treeScan)
  {
    var n := |maps| - 1;
    assert maps == maps[..n] + [maps[n]] && maps[n] in maps;
  }

  lemma {:induction false} BothAffected(a: Nodes, b: Nodes, k: string, paths: seq<string>, treeScan: bool)
    requires AllRelative(paths)
    ensures Affected(MergeNodes(a, b), k, paths, treeScan)
            <==> Affected(a, k, paths, treeScan) || Affected(b, k, paths, treeScan)
  {
    NothingHit(paths, treeScan);
    BothHit(paths, EntryOf(a, k), EntryOf(b, k), treeScan);
  }

  /** In rows: the keys a merged map implicates are the union of those its parts implicate. */
  lemma {:induction false} MergedRows(maps: seq<Recording>, k: string, paths: seq<string>, treeScan: bool,
      fileOf: string -> string)
    requires AllRelative(paths)
    ensures HasRow(Rows(Sorted(NodesOver(maps).Keys), NodesOver(maps), paths, treeScan, fileOf), k)
       <==> exists m :: m in maps && HasRow(Rows(Sorted(m.nodes.Keys), m.nodes, paths, treeScan, fileOf), k)
  {
    MergeCommutesWithBlast(maps, k, paths, treeScan);
    RowsAre(Sorted(NodesOver(maps).Keys), NodesOver(maps), paths, treeScan, fileOf, k);
    forall m | m in maps
      ensures HasRow(Rows(Sorted(m.nodes.Keys), m.nodes, paths, treeScan, fileOf), k)
              <==> Affected(m.nodes, k, paths, treeScan)
    {
      RowsAre(Sorted(m.nodes.Keys), m.nodes, paths, treeScan, fileOf, k);
    }
  }

  // ------------------------------------------------------------------ by file

  const UNATTRIBUTED := "<unattributed>"

  function FileKey(r: Row): string {
    if r.file == "" then UNATTRIBUTED else r.file
  }

  datatype Group = Group(keys: seq<string>, reasons: set<Reason>, paths: set<string>)

  datatype FileRow = FileRow(file: string, keys: seq<string>, reasons: set<Reason>, paths: seq<string>)

  function ReasonsOf(hits: seq<Hit>): set<Reason> {
    set h | h in hits :: h.reason
  }

  function PathsOf(hits: seq<Hit>): set<string> {
    set h | h in hits :: h.path
  }

  /** What the rows of one file add up to. */
  function GroupFor(rows: seq<Row>, file: string): Group {
    if rows == [] then Group([], {}, {})
    else
      var n := |rows| - 1;
      var g := GroupFor(rows[..n], file);
      if FileKey(rows[n]) == file then AddRow(g, rows[n]) else g
  }

  function AddRow(g: Group, r: Row): Group {
    Group(g.keys + [r.key], g.reasons + ReasonsOf(r.hits), g.paths + PathsOf(r.hits))
  }

  function GroupsOver(rows: seq<Row>): map<string, Group> {
    if rows == [] then map[]
    else
      var n := |rows| - 1;
      var groups := GroupsOver(rows[..n]);
      var f := FileKey(rows[n]);
      groups[f := AddRow(if f in groups then groups[f] else Group([], {}, {}), rows[n])]
  }

  lemma {:induction false} GroupsAre(rows: seq<Row>, file: string)
    ensures file in GroupsOver(rows) <==> exists r :: r in rows && FileKey(r) == file
    ensures file in GroupsOver(rows) ==> GroupsOver(rows)[file] == GroupFor(rows, file)
    ensures file !in GroupsOver(rows) ==> GroupFor(rows, file) == Group([], {}, {})
  {
    if rows != [] {
      var n := |rows| - 1;
      GroupsAre(rows[..n], file);
      assert rows == rows[..n] + [rows[n]] && rows[n] in rows;
    }
  }

  function FileRowOf(groups: map<string, Group>, f: string): FileRow
    requires f in groups
  {
    var g := groups[f];
    FileRow(f, Arrange(g.keys, Less), g.reasons, Sorted(g.paths))
  }

  function FileRows(files: seq<string>, groups: map<string, Group>): seq<FileRow>
    requires forall f | f in files :: f in groups
  {
    if files == [] then []
    else FileRows(files[..|files| - 1], groups) + [FileRowOf(groups, files[|files| - 1])]
  }

  method ByFile(rows: seq<Row>) returns (out: seq<FileRow>)
    ensures out == FileRows(Sorted(GroupsOver(rows).Keys), GroupsOver(rows))
  {
    var groups: map<string, Group> := map[];
    for i := 0 to |rows|
      invariant groups == GroupsOver(rows[..i])
    {
      TakeStep(rows, i);
      var f := FileKey(rows[i]);
      var g := if f in groups then groups[f] else Group([], {}, {});
      groups := groups[f := AddRow(g, rows[i])];
    }
    TakeAll(rows);
    var files := Sorted(groups.Keys);
    out := [];
    for i := 0 to |files|
      invariant out == FileRows(files[..i], groups)
    {
      TakeStep(files, i);
      assert files[i] in files;
      out := out + [FileRowOf(groups, files[i])];
    }
    TakeAll(files);
  }

  /** What the row of one file holds: the keys of that file's rows, as often as they occur, the reasons of
      their hits, and the paths they hit, each once and in order. */
  lemma {:induction false} FileRowSays(rows: seq<Row>, file: string)
    requires file in GroupsOver(rows)
    ensures var row := FileRowOf(GroupsOver(rows), file);
            && row.file == file && multiset(row.keys) == KeysIn(rows, file) && Ascending(row.paths, Less)
            && (forall x :: x in row.reasons <==> exists r, h :: InFile(rows, file, r, h) && h.reason == x)
            && (forall x :: x in row.paths <==> exists r, h :: InFile(rows, file, r, h) && h.path == x)
  {
    GroupsAre(rows, file);
    GroupSays(rows, file);
    ArrangeIsPermutation(GroupFor(rows, file).keys, Less);
  }

  /** A row whose node belongs to no file is listed under a name of its own. */
  lemma {:induction false} FileKeySays(r: Row)
    ensures r.file != "" ==> FileKey(r) == r.file
    ensures r.file == "" ==> FileKey(r) == "<unattributed>"
  {
  }

  ghost predicate InFile(rows: seq<Row>, file: string, r: Row, h: Hit) {
    r in rows && FileKey(r) == file && h in r.hits
  }

  /** The keys of the rows of one file. */
  function KeysIn(rows: seq<Row>, file: string): multiset<string> {
    if rows == [] then multiset{}
    else
      var n := |rows| - 1;
      KeysIn(rows[..n], file) + if FileKey(rows[n]) == file then multiset{rows[n].key} else multiset{}
  }

  lemma {:induction false} GroupSays(rows: seq<Row>, file: string)
    ensures var g := GroupFor(rows, file);
            && multiset(g.keys) == KeysIn(rows, file)
            && (forall x :: x in g.reasons <==> exists r, h :: InFile(rows, file, r, h) && h.reason == x)
            && (forall x :: x in g.paths <==> exists r, h :: InFile(rows, file, r, h) && h.path == x)
  {
    if rows != [] {
      var n := |rows| - 1;
      var g, before := GroupFor(rows, file), GroupFor(rows[..n], file);
      GroupSays(rows[..n], file);
      forall r, h ensures InFile(rows, file, r, h) <==> InFile(rows[..n], file, r, h)
                                                        || (r == rows[n] && FileKey(r) == file && h in r.hits) {
        assert rows == rows[..n] + [rows[n]];
      }
      forall x ensures x in g.reasons <==> exists r, h :: InFile(rows, file, r, h) && h.reason == x {
        if x in ReasonsOf(rows[n].hits) && FileKey(rows[n]) == file {
          var h :| h in rows[n].hits && h.reason == x;
          assert InFile(rows, file, rows[n], h);
        }
      }
      forall x ensures x in g.paths <==> exists r, h :: InFile(rows, file, r, h) && h.path == x {
        if x in PathsOf(rows[n].hits) && FileKey(rows[n]) == file {
          var h :| h in rows[n].hits && h.path == x;
          assert InFile(rows, file, rows[n], h);
        }
      }
    }
  }

  function KeyCount(files: seq<string>, rows: seq<Row>): nat {
    if files == [] then 0 else KeyCount(files[..|files| - 1], rows) + |GroupFor(rows, files[|files| - 1]).keys|
  }

  lemma {:induction false} KeyCountStep(files: seq<string>, rows: seq<Row>)
    requires Distinct(files) && rows != []
    ensures KeyCount(files, rows)
         == KeyCount(files, rows[..|rows| - 1]) + if FileKey(rows[|rows| - 1]) in files then 1 else 0
  {
    if files != [] {
      var n := |files| - 1;
      KeyCountStep(files[..n], rows);
      assert files == files[..n] + [files[n]];
      assert files[n] !in files[..n];
    }
  }

  lemma {:induction false} NoRowsNoKeys(files: seq<string>)
    ensures KeyCount(files, []) == 0
  {
    if files != [] { NoRowsNoKeys(files[..|files| - 1]); }
  }

  /** The unit you can run loses nothing: every row is counted under exactly one file. */
  lemma {:induction false} ByFileConserves(files: seq<string>, rows: seq<Row>)
    requires Distinct(files) && forall r | r in rows :: FileKey(r) in files
    ensures KeyCount(files, rows) == |rows|
  {
    if rows == [] {
      NoRowsNoKeys(files);
    } else {
      var n := |rows| - 1;
      assert rows == rows[..n] + [rows[n]] && rows[n] in rows;
      ByFileConserves(files, rows[..n]);
      KeyCountStep(files, rows);
    }
  }

  /** The files listed are what that needs. */
  lemma {:induction false} FilesListed(rows: seq<Row>)
    ensures var files := Sorted(GroupsOver(rows).Keys);
            && Distinct(files) && (forall r | r in rows :: FileKey(r) in files)
            && KeyCount(files, rows) == |rows|
  {
    var files := Sorted(GroupsOver(rows).Keys);
    forall i, j | 0 <= i < j < |files| ensures files[i] != files[j] {
      InOrder(files, Less, i, j);
      LessTrichotomy(files[i], files[i]);
    }
    forall r | r in rows ensures FileKey(r) in files {
      GroupsAre(rows, FileKey(r));
    }
    ByFileConserves(files, rows);
  }
}
