/** harness/wiring_audit.py, the reachability graph. */
module WiringGraph {
  import opened Order
  import opened Seqs
  import opened Text

  datatype Kind = Import | DashM | Dir | Join | Path

  /** How strong the evidence of an edge is. */
  function Strength(k: Kind): nat {
    match k
    case Import => 3
    case DashM => 3
    case Dir => 2
    case Join => 2
    case Path => 1
  }

  datatype Edge = Edge(line: nat, kind: Kind)

  datatype Hop = Hop(src: string, line: nat, tgt: string, kind: Kind)

  datatype Incoming = Incoming(src: string, line: nat, kind: Kind)

  /** The tree as the graph sees it: the code nodes, the driver's roots, and what each file's code
      refers to (the resolved targets, each with its line and kind). */
  datatype Wiring = Wiring(nodes: set<string>, roots: seq<string>, refs: string -> map<string, Edge>) {

    /** The edges kept for a file: into the node set, and not to itself. */
    function Succ(p: string): map<string, Edge> {
      map t | t in refs(p) && t in nodes && t != p :: refs(p)[t]
    }

    /** A route of files from a root, each referring to the next. */
    predicate Follows(route: seq<string>, i: nat)
      requires 0 < i < |route|
    {
      route[i] in Succ(route[i - 1])
    }

    ghost predicate IsRoute(route: seq<string>) {
      && route != [] && route[0] in roots && route[0] in nodes
      && forall i {:trigger Follows(route, i)} | 0 < i < |route| :: Follows(route, i)
    }

    ghost predicate RouteTo(route: seq<string>, p: string) {
      IsRoute(route) && route[|route| - 1] == p
    }

    ghost predicate Reachable(p: string) {
      exists route :: RouteTo(route, p)
    }

    lemma {:induction false} RouteExtends(route: seq<string>, p: string, t: string)
      requires RouteTo(route, p) && t in Succ(p)
      ensures RouteTo(route + [t], t)
    {
      var longer := route + [t];
      forall i | 0 < i < |longer| ensures Follows(longer, i) {
        if i < |route| { assert Follows(route, i); }
      }
    }

    /** A depth table that starts the roots at 0 and grows by at most one along every edge is a lower
        bound on the length of every route. */
    lemma {:induction false} DepthBoundsRoutes(depth: map<string, nat>, route: seq<string>)
      requires forall r | r in roots && r in nodes :: r in depth && depth[r] == 0
      requires forall p, t {:trigger t in Succ(p)} | p in depth && t in Succ(p) ::
              t in depth && depth[t] <= depth[p] + 1
      requires IsRoute(route)
      ensures route[|route| - 1] in depth && depth[route[|route| - 1]] <= |route| - 1
    {
      if |route| > 1 {
        var shorter := route[..|route| - 1];
        forall i | 0 < i < |shorter| ensures Follows(shorter, i) {
          assert Follows(route, i);
        }
        DepthBoundsRoutes(depth, shorter);
        assert Follows(route, |route| - 1);
      }
    }
  }

  /** The parent that explains the table entry of `p`: none for a root, otherwise a recorded edge from
      a file one level up. */
  ghost predicate HasParent(w: Wiring, via: map<string, Option<Incoming>>, depth: map<string, nat>, p: string) {
    p in via && p in depth &&
    match via[p]
    case None => p in w.roots && depth[p] == 0
    case Some(e) =>
      && e.src in depth && depth[p] == depth[e.src] + 1
      && p in w.Succ(e.src) && w.Succ(e.src)[p] == Edge(e.line, e.kind)
  }

  ghost predicate Parented(w: Wiring, via: map<string, Option<Incoming>>, depth: map<string, nat>) {
    && via.Keys == depth.Keys <= w.nodes
    && forall p {:trigger HasParent(w, via, depth, p)} | p in via :: HasParent(w, via, depth, p)
  }

  ghost predicate Searched(w: Wiring, seen: set<string>, via: map<string, Option<Incoming>>, depth: map<string, nat>) {
    && Parented(w, via, depth) && via.Keys == seen
    && Rooted(w, via, depth)
    && (forall p, t {:trigger t in w.Succ(p)} | p in depth && t in w.Succ(p) :: t in depth && depth[t] <= depth[p] + 1)
  }

  /** The chain of edges the parent table gives for `p`. */
  ghost function Chain(w: Wiring, via: map<string, Option<Incoming>>, depth: map<string, nat>, p: string): seq<Hop>
    requires Parented(w, via, depth) && p in via
    decreases depth[p]
  {
    assert HasParent(w, via, depth, p);
    match via[p]
    case None => []
    case Some(e) => Chain(w, via, depth, e.src) + [Hop(e.src, e.line, p, e.kind)]
  }

  /** A chain of recorded edges from a root to `p`. */
  ghost predicate IsChain(w: Wiring, chain: seq<Hop>, p: string) {
    && (chain == [] ==> p in w.roots && p in w.nodes)
    && (chain != [] ==> chain[0].src in w.roots && chain[0].src in w.nodes && chain[|chain| - 1].tgt == p)
    && (forall i {:trigger IsLink(w, chain, i)} | 0 <= i < |chain| :: IsLink(w, chain, i))
  }

  /** The i-th hop is a recorded edge and starts where the hop before it ended. */
  predicate IsLink(w: Wiring, chain: seq<Hop>, i: nat)
    requires i < |chain|
  {
    var h := chain[i];
    && h.tgt in w.Succ(h.src) && w.Succ(h.src)[h.tgt] == Edge(h.line, h.kind)
    && (i > 0 ==> h.src == chain[i - 1].tgt)
  }

  lemma {:induction false} ChainIsChain(w: Wiring, via: map<string, Option<Incoming>>, depth: map<string, nat>,
      p: string)
    requires Parented(w, via, depth) && p in via
    ensures IsChain(w, Chain(w, via, depth, p), p)
    ensures |Chain(w, via, depth, p)| == depth[p]
    decreases depth[p]
  {
    assert HasParent(w, via, depth, p);
    if via[p].Some? {
      var src := via[p].value.src;
      ChainIsChain(w, via, depth, src);
      var shorter, chain := Chain(w, via, depth, src), Chain(w, via, depth, p);
      forall i | 0 <= i < |chain| ensures IsLink(w, chain, i) {
        if i < |shorter| { assert IsLink(w, shorter, i); }
      }
    }
  }

  /** A chain visits the files of a route one longer than itself. */
  lemma {:induction false} ChainIsRoute(w: Wiring, chain: seq<Hop>, p: string) returns (route: seq<string>)
    requires IsChain(w, chain, p)
    ensures w.RouteTo(route, p) && |route| == |chain| + 1
  {
    if chain == [] {
      route := [p];
    } else {
      var n := |chain| - 1;
      assert IsLink(w, chain, n);
      forall i | 0 <= i < n ensures IsLink(w, chain[..n], i) {
        assert IsLink(w, chain, i);
      }
      assert n == 0 || IsLink(w, chain, n - 1);
      assert IsChain(w, chain[..n], chain[n].src);
      route := ChainIsRoute(w, chain[..n], chain[n].src);
      w.RouteExtends(route, chain[n].src, p);
      route := route + [p];
    }
  }

  /** Search correctness: what was reached is what is reachable, and each depth is the length of a
      shortest route. */
  lemma {:induction false} SearchIsCorrect(w: Wiring, seen: set<string>, via: map<string, Option<Incoming>>,
      depth: map<string, nat>, p: string)
    requires Searched(w, seen, via, depth)
    ensures p in seen <==> w.Reachable(p)
    ensures p in seen ==> && (exists route :: w.RouteTo(route, p) && |route| == depth[p] + 1)
                          && (forall route | w.RouteTo(route, p) :: |route| >= depth[p] + 1)
  {
    forall route | w.RouteTo(route, p) ensures p in seen && |route| >= depth[p] + 1 {
      w.DepthBoundsRoutes(depth, route);
    }
    if p in seen {
      ChainIsChain(w, via, depth, p);
      var route := ChainIsRoute(w, Chain(w, via, depth, p), p);
    }
  }

  // ------------------------------------------------------------------ the search

  /** Between two pops: everything seen is done or queued; done files lie at depth `d` or above; the
      first `k` queued files lie at `d` and the rest one deeper. */
  ghost predicate Layered(depth: map<string, nat>, queue: seq<string>, done: set<string>, d: nat, k: nat) {
    && k <= |queue|
    && (forall p :: p in depth <==> p in done || p in queue)
    && (forall p | p in done :: p in depth && depth[p] <= d)
    && (forall i | 0 <= i < |queue| :: queue[i] in depth && depth[queue[i]] == if i < k then d else d + 1)
  }

  ghost predicate Explored(w: Wiring, depth: map<string, nat>, done: set<string>) {
    && (forall p | p in done :: p in depth)
    && forall p, t {:trigger t in w.Succ(p)} | p in done && t in w.Succ(p) :: t in depth && depth[t] <= depth[p] + 1
  }

  ghost predicate Rooted(w: Wiring, via: map<string, Option<Incoming>>, depth: map<string, nat>) {
    forall r {:trigger r in w.roots} | r in w.roots && r in w.nodes ::
        r in depth && depth[r] == 0 && r in via && via[r] == None
  }

  /** Adding one entry below `cur` keeps the tables sound. */
  lemma {:induction false} EntryKeepsTables(w: Wiring, via: map<string, Option<Incoming>>, depth: map<string, nat>,
      cur: string, tgt: string)
    requires Parented(w, via, depth) && Rooted(w, via, depth)
    requires cur in depth && tgt in w.Succ(cur) && tgt !in depth
    ensures var e := w.Succ(cur)[tgt];
            var via', depth' := via[tgt := Some(Incoming(cur, e.line, e.kind))], depth[tgt := depth[cur] + 1];
            Parented(w, via', depth') && Rooted(w, via', depth')
  {
    var e := w.Succ(cur)[tgt];
    var via', depth' := via[tgt := Some(Incoming(cur, e.line, e.kind))], depth[tgt := depth[cur] + 1];
    forall p | p in via' ensures HasParent(w, via', depth', p) {
      if p != tgt { assert HasParent(w, via, depth, p); }
    }
  }

  lemma {:induction false} EntryKeepsLayers(depth: map<string, nat>, queue: seq<string>, done: set<string>, d: nat,
      k: nat, tgt: string)
    requires Layered(depth, queue, done, d, k) && tgt !in depth
    ensures Layered(depth[tgt := d + 1], queue + [tgt], done, d, k)
  {
    var queue' := queue + [tgt];
    forall i | 0 <= i < |queue'| ensures queue'[i] in depth[tgt := d + 1]
                                      && depth[tgt := d + 1][queue'[i]] == if i < k then d else d + 1 {
      if i < |queue| { assert queue[i] in queue; }
    }
  }

  /** What the search knows between two pops. */
  ghost predicate Searching(w: Wiring, via: map<string, Option<Incoming>>, depth: map<string, nat>,
      queue: seq<string>, done: set<string>, d: nat, k: nat) {
    && Parented(w, via, depth) && Rooted(w, via, depth)
    && Layered(depth, queue, done, d, k) && Explored(w, depth, done)
  }

  lemma {:induction false} Pop(depth: map<string, nat>, queue: seq<string>, done: set<string>, d: nat,
      k: nat) returns (d': nat, k': nat)
    requires Layered(depth, queue, done, d, k) && queue != []
    ensures queue[0] in depth && depth[queue[0]] == d'
    ensures Layered(depth, queue[1..], done + {queue[0]}, d', k')
  {
    d', k' := if k > 0 then d else d + 1, if k > 0 then k - 1 else |queue| - 1;
    forall i | 0 <= i < |queue| - 1
      ensures queue[1..][i] in depth && depth[queue[1..][i]] == if i < k' then d' else d' + 1
    {
      assert queue[1..][i] == queue[i + 1];
    }
    assert forall p :: p in queue <==> p == queue[0] || p in queue[1..];
  }

  lemma {:induction false} ExploredGrows(w: Wiring, depth: map<string, nat>, done: set<string>, tgt: string, n: nat)
    requires Explored(w, depth, done) && tgt !in depth
    ensures Explored(w, depth[tgt := n], done)
  {
  }

  lemma {:induction false} VisitedIsExplored(w: Wiring, depth: map<string, nat>, queue: seq<string>,
      done: set<string>, d: nat, k: nat, cur: string)
    requires Layered(depth, queue, done + {cur}, d, k) && Explored(w, depth, done) && cur in depth && depth[cur] == d
    requires forall t | t in w.Succ(cur) :: t in depth
    ensures Explored(w, depth, done + {cur})
  {
    forall t | t in depth ensures depth[t] <= d + 1 {
      if t in queue {
        var i :| 0 <= i < |queue| && queue[i] == t;
      }
    }
  }

  /** While the targets of `cur`, at depth `d`, are being filed. */
  ghost predicate Visiting(w: Wiring, via: map<string, Option<Incoming>>, depth: map<string, nat>, queue: seq<string>,
      done: set<string>, cur: string, d: nat, k: nat) {
    && Parented(w, via, depth) && Rooted(w, via, depth) && cur in depth && depth[cur] == d
    && Layered(depth, queue, done + {cur}, d, k) && Explored(w, depth, done)
  }

  lemma {:induction false} Discovered(w: Wiring, via: map<string, Option<Incoming>>, depth: map<string, nat>,
      queue: seq<string>, done: set<string>, cur: string, d: nat, k: nat, tgt: string)
    requires Visiting(w, via, depth, queue, done, cur, d, k) && tgt in w.Succ(cur) && tgt !in depth
    ensures var e := w.Succ(cur)[tgt];
            Visiting(w, via[tgt := Some(Incoming(cur, e.line, e.kind))], depth[tgt := depth[cur] + 1],
                     queue + [tgt], done, cur, d, k)
    ensures cur !in done
  {
    assert depth[tgt := depth[cur] + 1] == depth[tgt := d + 1];
    EntryKeepsTables(w, via, depth, cur, tgt);
    EntryKeepsLayers(depth, queue, done + {cur}, d, k, tgt);
    ExploredGrows(w, depth, done, tgt, d + 1);
  }

  datatype Tables = Tables(via: map<string, Option<Incoming>>, depth: map<string, nat>, queue: seq<string>)

  /** Files one target of `cur`, unless it has been seen. */
  function Discover(w: Wiring, cur: string, tgt: string, t: Tables): Tables
    requires cur in t.depth && tgt in w.Succ(cur)
  {
    if tgt in t.depth then t
    else
      var e := w.Succ(cur)[tgt];
      Tables(t.via[tgt := Some(Incoming(cur, e.line, e.kind))], t.depth[tgt := t.depth[cur] + 1], t.queue + [tgt])
  }

  lemma {:induction false} DiscoverVisits(w: Wiring, cur: string, tgt: string, t: Tables, done: set<string>, d: nat,
      k: nat)
    requires cur in t.depth && tgt in w.Succ(cur) && Visiting(w, t.via, t.depth, t.queue, done, cur, d, k)
    ensures var r := Discover(w, cur, tgt, t);
            && Visiting(w, r.via, r.depth, r.queue, done, cur, d, k) && tgt in r.depth
            && t.depth.Keys <= r.depth.Keys && (cur in done ==> r == t)
  {
    if tgt !in t.depth {
      Discovered(w, t.via, t.depth, t.queue, done, cur, d, k, tgt);
    }
  }

  function DiscoverAll(w: Wiring, cur: string, ks: seq<string>, t: Tables): (r: Tables)
    requires cur in t.depth && forall k | k in ks :: k in w.Succ(cur)
    ensures cur in r.depth
  {
    if ks == [] then t
    else
      var n := |ks| - 1;
      Discover(w, cur, ks[n], DiscoverAll(w, cur, ks[..n], t))
  }

  lemma {:induction false} DiscoverAllVisits(w: Wiring, cur: string, ks: seq<string>, t: Tables, done: set<string>,
      d: nat, k: nat)
    requires cur in t.depth && forall k | k in ks :: k in w.Succ(cur)
    requires Visiting(w, t.via, t.depth, t.queue, done, cur, d, k)
    ensures var r := DiscoverAll(w, cur, ks, t);
            && Visiting(w, r.via, r.depth, r.queue, done, cur, d, k)
            && (forall tgt | tgt in ks :: tgt in r.depth)
            && (cur in done ==> r == t)
  {
    if ks != [] {
      var n := |ks| - 1;
      DiscoverAllVisits(w, cur, ks[..n], t, done, d, k);
      var m := DiscoverAll(w, cur, ks[..n], t);
      assert ks == ks[..n] + [ks[n]];
      DiscoverVisits(w, cur, ks[n], m, done, d, k);
    }
  }

  method FileTargets(w: Wiring, cur: string, ks: seq<string>, t0: Tables) returns (t: Tables)
    requires cur in t0.depth && forall k | k in ks :: k in w.Succ(cur)
    ensures t == DiscoverAll(w, cur, ks, t0)
  {
    t := t0;
    for i := 0 to |ks|
      invariant t == DiscoverAll(w, cur, ks[..i], t0)
    {
      TakeStep(ks, i);
      t := Discover(w, cur, ks[i], t);
    }
    TakeAll(ks);
  }

  /** Follows the parent table from a file back to its root, then reverses what it collected. */
  method WalkBack(w: Wiring, via: map<string, Option<Incoming>>, ghost depth: map<string, nat>,
      path: string) returns (chain: seq<Hop>)
    requires Parented(w, via, depth) && path in via
    ensures chain == Chain(w, via, depth, path)
  {
    var reversed: seq<Hop>, cur := [], path;
    while via[cur].Some?
      invariant cur in via
      invariant Chain(w, via, depth, path) == Chain(w, via, depth, cur) + Reverse(reversed)
      decreases depth[cur]
    {
      assert HasParent(w, via, depth, cur);
      var e := via[cur].value;
      ReverseStep(Chain(w, via, depth, e.src), Hop(e.src, e.line, cur, e.kind), reversed);
      reversed := reversed + [Hop(e.src, e.line, cur, e.kind)];
      cur := e.src;
    }
    chain := Reverse(reversed);
  }

  /** Visiting one file takes the search from one state between pops to the next. */
  lemma {:induction false} DiscoverAllSearches(w: Wiring, t: Tables, done: set<string>, cur: string, d: nat, k: nat)
    requires Visiting(w, t.via, t.depth, t.queue, done, cur, d, k)
    ensures var r := DiscoverAll(w, cur, Sorted(w.Succ(cur).Keys), t);
            && Searching(w, r.via, r.depth, r.queue, done + {cur}, d, k)
            && (cur in done ==> r.queue == t.queue)
  {
    var ks := Sorted(w.Succ(cur).Keys);
    DiscoverAllVisits(w, cur, ks, t, done, d, k);
    var r := DiscoverAll(w, cur, ks, t);
    forall x | x in w.Succ(cur) ensures x in r.depth {
      assert x in ks;
    }
    VisitedIsExplored(w, r.depth, r.queue, done, d, k, cur);
  }

  /** While the roots are being queued. */
  ghost predicate Seeded(w: Wiring, via: map<string, Option<Incoming>>, depth: map<string, nat>, queue: seq<string>,
      i: nat) {
    && i <= |w.roots| && Parented(w, via, depth) && Layered(depth, queue, {}, 0, |queue|)
    && (forall p | p in depth :: depth[p] == 0 && via[p] == None)
    && (forall j | 0 <= j < i && w.roots[j] in w.nodes :: w.roots[j] in depth)
  }

  lemma {:induction false} SeedStep(w: Wiring, via: map<string, Option<Incoming>>, depth: map<string, nat>,
      queue: seq<string>, i: nat)
    requires Seeded(w, via, depth, queue, i) && i < |w.roots|
    ensures var r := w.roots[i];
            if r in w.nodes then Seeded(w, via[r := None], depth[r := 0], queue + [r], i + 1)
            else Seeded(w, via, depth, queue, i + 1)
  {
    var r := w.roots[i];
    var queue' := queue + [r];
    assert forall j | 0 <= j < |queue| :: queue'[j] == queue[j] && queue[j] in queue;
    var via', depth' := via[r := None], depth[r := 0];
    forall p | p in via' && r in w.nodes ensures HasParent(w, via', depth', p) {
      if p != r { assert HasParent(w, via, depth, p); }
    }
  }

  lemma {:induction false} SeededIsSearching(w: Wiring, via: map<string, Option<Incoming>>, depth: map<string, nat>,
      queue: seq<string>)
    requires Seeded(w, via, depth, queue, |w.roots|)
    ensures Searching(w, via, depth, queue, {}, 0, |queue|)
  {
  }

  /** An exhausted queue leaves finished tables. */
  lemma {:induction false} ExhaustedIsSearched(w: Wiring, via: map<string, Option<Incoming>>,
      depth: map<string, nat>, done: set<string>, d: nat, k: nat)
    requires Searching(w, via, depth, [], done, d, k)
    ensures Searched(w, via.Keys, via, depth)
  {
  }

  /** Breadth-first search, edges expanded on demand, with the parent and depth tables it leaves. */
  class Graph {
    const w: Wiring
    var edges: map<string, map<string, Edge>>
    var reached: Option<set<string>>
    var via: map<string, Option<Incoming>>
    var depth: map<string, nat>

    constructor (w: Wiring)
      ensures this.w == w && reached.None? && Valid()
    {
      this.w := w;
      edges, reached, via, depth := map[], None, map[], map[];
    }

    /** Expanded edges are the file's own, and a finished search left finished tables. */
    ghost predicate Valid()
      reads this
    {
      && (forall p | p in edges :: edges[p] == w.Succ(p))
      && (reached.Some? ==> Searched(w, reached.value, via, depth) && reached.value <= edges.Keys)
    }

    method Expand(path: string) returns (out: map<string, Edge>)
      requires Valid()
      modifies this`edges
      ensures Valid() && out == w.Succ(path)
      ensures edges == old(edges)[path := w.Succ(path)]
    {
      if path !in edges {
        edges := edges[path := w.Succ(path)];
      }
      out := edges[path];
    }

    method Closure() returns (seen: set<string>)
      requires Valid()
      modifies this
      ensures Valid() && reached == Some(seen)
      ensures forall p :: p in seen <==> w.Reachable(p)
      ensures old(reached.Some?)
              ==> reached == old(reached) && via == old(via) && depth == old(depth) && edges == old(edges)
    {
      if reached.None? {
        Search();
      }
      seen := reached.value;
      forall p ensures p in seen <==> w.Reachable(p) {
        SearchIsCorrect(w, seen, via, depth, p);
      }
    }

    /** Seeds the queue with the roots that are nodes. */
    method Seed() returns (queue: seq<string>)
      requires Valid() && reached.None?
      modifies this`via, this`depth
      ensures Valid()
      ensures Searching(w, via, depth, queue, {}, 0, |queue|)
    {
      queue, via, depth := [], map[], map[];
      for i := 0 to |w.roots|
        invariant Seeded(w, via, depth, queue, i)
      {
        SeedStep(w, via, depth, queue, i);
        var r := w.roots[i];
        if r in w.nodes {
          queue := queue + [r];
          via := via[r := None];
          depth := depth[r := 0];
        }
      }
      SeededIsSearching(w, via, depth, queue);
    }

    /** Files the unseen targets of one file, in the order of their names. */
    method Visit(cur: string, rest: seq<string>) returns (queue: seq<string>)
      requires Valid() && reached.None? && cur in depth
      modifies this`edges, this`via, this`depth
      ensures Valid() && edges == old(edges)[cur := w.Succ(cur)]
      ensures Tables(via, depth, queue)
              == DiscoverAll(w, cur, Sorted(w.Succ(cur).Keys), Tables(old(via), old(depth), rest))
    {
      var out := Expand(cur);
      var t := FileTargets(w, cur, Sorted(out.Keys), Tables(via, depth, rest));
      via, depth, queue := t.via, t.depth, t.queue;
    }

    method Search()
      requires Valid() && reached.None?
      modifies this
      ensures Valid() && reached.Some?
    {
      var queue := Seed();
      ghost var done: set<string>, d: nat, k: nat := {}, 0, |queue|;
      while queue != []
        invariant reached.None? && Valid() && done <= edges.Keys
        invariant Searching(w, via, depth, queue, done, d, k)
        decreases w.nodes - done, |queue|
      {
        var cur := queue[0];
        d, k := Pop(depth, queue, done, d, k);
        ghost var t := Tables(via, depth, queue[1..]);
        queue := Visit(cur, queue[1..]);
        DiscoverAllSearches(w, t, done, cur, d, k);
        done := done + {cur};
      }
      ExhaustedIsSearched(w, via, depth, done, d, k);
      reached := Some(via.Keys);
    }

    /** The chain of edges by which the search reached a file; none for a file it did not reach. */
    method Why(path: string) returns (chain: Option<seq<Hop>>)
      requires Valid()
      modifies this
      ensures Valid() && reached.Some?
      ensures chain.Some? <==> w.Reachable(path)
      ensures chain.Some? ==> IsChain(w, chain.value, path)
      ensures chain.Some? ==> forall route | w.RouteTo(route, path) :: |chain.value| + 1 <= |route|
    {
      var seen := Closure();
      if path !in seen {
        return None;
      }
      var hops := WalkBack(w, via, depth, path);
      chain := Some(hops);
      ChainIsChain(w, via, depth, path);
      SearchIsCorrect(w, seen, via, depth, path);
    }

    /** The strongest evidence into a file from anywhere the search reached. */
    method BestIncoming(path: string) returns (best: Option<Incoming>)
      requires Valid()
      modifies this
      ensures Valid() && reached.Some?
      ensures best == BestOver(w, depth, path, Sorted(reached.value))
      ensures old(reached.Some?)
              ==> reached == old(reached) && via == old(via) && depth == old(depth) && edges == old(edges)
    {
      var seen := Closure();
      best := BestKnown(path);
    }

    method BestKnown(path: string) returns (best: Option<Incoming>)
      requires Valid() && reached.Some?
      ensures best == BestOver(w, depth, path, Sorted(reached.value))
    {
      best := ScanEvidence(w, edges, depth, path, Sorted(reached.value));
    }
  }

  /** The evidence order: shallowest source, then strongest kind, then source path. */
  predicate Better(depth: map<string, nat>, a: Incoming, b: Incoming)
    requires a.src in depth && b.src in depth
  {
    || depth[a.src] < depth[b.src]
    || (depth[a.src] == depth[b.src] && (|| Strength(a.kind) > Strength(b.kind)
                                         || (Strength(a.kind) == Strength(b.kind) && Less(a.src, b.src))))
  }

  /** The order on what the kinds are: nearer evidence wins; of the same depth, an import or a module run beats a
      directory or a joined path, those beat a name in text, and of equals the first source by name wins. */
  lemma {:induction false} BetterSays(depth: map<string, nat>, a: Incoming, b: Incoming)
    requires a.src in depth && b.src in depth
    ensures depth[a.src] < depth[b.src] ==> Better(depth, a, b)
    ensures depth[a.src] == depth[b.src] && a.kind in {Import, DashM} && b.kind in {Dir, Join, Path}
            ==> Better(depth, a, b)
    ensures depth[a.src] == depth[b.src] && a.kind in {Dir, Join} && b.kind == Path ==> Better(depth, a, b)
    ensures depth[a.src] == depth[b.src]
            && (a.kind == b.kind || {a.kind, b.kind} == {Import, DashM} || {a.kind, b.kind} == {Dir, Join})
            ==> (Better(depth, a, b) <==> Less(a.src, b.src))
  {
    assert a.kind in {a.kind, b.kind} && b.kind in {a.kind, b.kind};
  }

  /** Evidence for a file comes from another file, refers to it, and stays within the tree's code. */
  lemma {:induction false} EvidenceSays(w: Wiring, e: Incoming, path: string)
    ensures IsEvidence(w, e, path)
       <==> e.src != path && path in w.nodes && path in w.refs(e.src) && w.refs(e.src)[path] == Edge(e.line, e.kind)
  {
  }

  predicate IsEvidence(w: Wiring, e: Incoming, path: string) {
    path in w.Succ(e.src) && w.Succ(e.src)[path] == Edge(e.line, e.kind)
  }

  function PickBetter(w: Wiring, depth: map<string, nat>, path: string, best: Option<Incoming>, src: string,
      out: map<string, Edge>): (r: Option<Incoming>)
    requires src in depth && (best.Some? ==> best.value.src in depth)
    ensures r.Some? ==> r.value.src in depth
  {
    if path !in out then best
    else
      var e := Incoming(src, out[path].line, out[path].kind);
      if best.None? || Better(depth, e, best.value) then Some(e) else best
  }

  function BestOver(w: Wiring, depth: map<string, nat>, path: string, srcs: seq<string>): (r: Option<Incoming>)
    requires forall s | s in srcs :: s in depth
    ensures r.Some? ==> r.value.src in depth
  {
    if srcs == [] then None
    else
      var n := |srcs| - 1;
      PickBetter(w, depth, path, BestOver(w, depth, path, srcs[..n]), srcs[n], w.Succ(srcs[n]))
  }

  method ScanEvidence(w: Wiring, edges: map<string, map<string, Edge>>, depth: map<string, nat>, path: string,
      srcs: seq<string>)
    returns (best: Option<Incoming>)
    requires forall s | s in srcs :: s in depth && s in edges && edges[s] == w.Succ(s)
    ensures best == BestOver(w, depth, path, srcs)
  {
    best := None;
    for i := 0 to |srcs|
      invariant best == BestOver(w, depth, path, srcs[..i])
    {
      TakeStep(srcs, i);
      best := PickBetter(w, depth, path, best, srcs[i], edges[srcs[i]]);
    }
    TakeAll(srcs);
  }

  /** `best` is evidence from one of the sources, and beats all the other evidence there is. */
  ghost predicate IsBest(w: Wiring, depth: map<string, nat>, path: string, srcs: seq<string>, best: Option<Incoming>)
    requires forall s | s in srcs :: s in depth
  {
    match best
    case None => forall s | s in srcs :: path !in w.Succ(s)
    case Some(b) =>
      && b.src in srcs && IsEvidence(w, b, path)
      && forall e: Incoming | e.src in srcs && IsEvidence(w, e, path) :: e == b || Better(depth, b, e)
  }

  lemma {:induction false} BetterIsOrder(depth: map<string, nat>, a: Incoming, b: Incoming, c: Incoming)
    requires a.src in depth && b.src in depth && c.src in depth
    ensures a.src != b.src ==> Better(depth, a, b) || Better(depth, b, a)
    ensures Better(depth, a, b) && Better(depth, b, c) ==> Better(depth, a, c)
  {
    LessTrichotomy(a.src, b.src);
    if Less(a.src, b.src) && Less(b.src, c.src) { LessTransitive(a.src, b.src, c.src); }
  }

  lemma {:induction false} BestOverIsBest(w: Wiring, depth: map<string, nat>, path: string, srcs: seq<string>)
    requires forall s | s in srcs :: s in depth
    ensures IsBest(w, depth, path, srcs, BestOver(w, depth, path, srcs))
  {
    if srcs != [] {
      var n := |srcs| - 1;
      BestOverIsBest(w, depth, path, srcs[..n]);
      var was, now := BestOver(w, depth, path, srcs[..n]), BestOver(w, depth, path, srcs);
      assert srcs == srcs[..n] + [srcs[n]];
      if now.Some? {
        forall e: Incoming | e.src in srcs && IsEvidence(w, e, path)
          ensures e == now.value || Better(depth, now.value, e)
        {
          if e.src in srcs[..n] {
            BetterIsOrder(depth, now.value, was.value, e);
          } else if now == was {
            BetterIsOrder(depth, e, was.value, e);
          }
        }
      }
    }
  }

  /** For a file reached through an edge, the best evidence exists and comes from one level up: its
      source is one step nearer the roots than the file. */
  lemma {:induction false} BestIsOneLevelUp(w: Wiring, seen: set<string>, via: map<string, Option<Incoming>>,
      depth: map<string, nat>, path: string)
    requires Searched(w, seen, via, depth) && path in seen && path !in w.roots
    ensures forall s | s in Sorted(seen) :: s in depth
    ensures var best := BestOver(w, depth, path, Sorted(seen));
            && IsBest(w, depth, path, Sorted(seen), best) && best.Some?
            && depth[path] == depth[best.value.src] + 1
  {
    var srcs := Sorted(seen);
    BestOverIsBest(w, depth, path, srcs);
    assert HasParent(w, via, depth, path);
    var e := via[path].value;
    assert e.src in srcs && IsEvidence(w, e, path);
    var best := BestOver(w, depth, path, srcs);
    assert best.Some?;
    assert path in w.Succ(best.value.src);
  }

  function Reverse<T>(s: seq<T>): (r: seq<T>)
    ensures |r| == |s|
  {
    if s == [] then [] else [s[|s| - 1]] + Reverse(s[..|s| - 1])
  }

  lemma {:induction false} ReverseStep<T>(front: seq<T>, x: T, reversed: seq<T>)
    ensures front + [x] + Reverse(reversed) == front + Reverse(reversed + [x])
  {
    assert (reversed + [x])[..|reversed|] == reversed;
  }
}
