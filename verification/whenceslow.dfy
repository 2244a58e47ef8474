/** harness/whenceslow.py, the evidence cache: when a recorded run still says something about the tree. */
module WhenceSlow {
  import opened Order
  import opened Seqs
  import opened Text
  import opened WhenceReplay

  const ALWAYS_LOADED := {"tests/conftest.py", "tests/__init__.py", "pytest.ini"}
  const UNREADABLE := "<unreadable>"

  /** A checkout: every path that exists, with its bytes unless they cannot be read. */
  type Tree = map<string, Option<string>>

  /** What the module takes from outside: the digest of a file, the digest of a byte stream, and the
      test modules a file's text imports (none when it does not decode or parse). */
  datatype Tools = Tools(sha: string -> string, top: string -> string, imports: string -> set<string>) {

    /** A file digest is 16 hex digits. */
    ghost predicate WellFormed() {
      forall a :: |sha(a)| == 16 && '<' !in sha(a)
    }
  }

  function Read(tree: Tree, rel: string): Option<string> {
    if rel in tree then tree[rel] else None
  }

  /** `_sha`: a file that vanished or cannot be read has a digest of its own. */
  function Sha(tools: Tools, tree: Tree, rel: string): string {
    match Read(tree, rel)
    case Some(bytes) => tools.sha(bytes)
    case None => UNREADABLE
  }

  /** The contents that can be read in a checkout. */
  function Texts(tree: Tree): set<string> {
    set rel | rel in tree && tree[rel].Some? :: tree[rel].value
  }

  /** No content of one tree shares its digest with a different content of the other. */
  ghost predicate NoCollision(tools: Tools, t1: Tree, t2: Tree) {
    && tools.WellFormed()
    && forall a, b | a in Texts(t1) && b in Texts(t2) :: tools.sha(a) == tools.sha(b) ==> a == b
  }

  lemma {:induction false} ShaReads(tools: Tools, t1: Tree, t2: Tree, rel: string)
    requires NoCollision(tools, t1, t2)
    ensures Sha(tools, t1, rel) == Sha(tools, t2, rel) <==> Read(t1, rel) == Read(t2, rel)
  {
    assert '<' == UNREADABLE[0];
    assert forall b :: Read(t1, rel) == Some(b) ==> b in Texts(t1);
    assert forall b :: Read(t2, rel) == Some(b) ==> b in Texts(t2);
  }

  // ------------------------------------------------------------------ the subject digest

  predicate IsSubject(rel: string) {
    IsSource(rel) && !UnderTests(rel)
  }

  function SubjectFiles(tree: Tree): seq<string> {
    Sorted(set rel | rel in tree && IsSubject(rel))
  }

  /** The bytes fed to the digest: path, NUL, file digest, for each subject file in order. */
  function SubjectStream(tools: Tools, tree: Tree, files: seq<string>): string {
    if files == [] then ""
    else files[0] + ['\0'] + (Sha(tools, tree, files[0]) + SubjectStream(tools, tree, files[1..]))
  }

  function SubjectDigest(tools: Tools, tree: Tree): string {
    tools.top(SubjectStream(tools, tree, SubjectFiles(tree)))
  }

  /** The digests in use tell two trees apart: neither contents nor subject streams collide. Digests are
      truncated to 16 digits, so this is asked of the trees compared and of nothing else. */
  ghost predicate TellsApart(tools: Tools, t1: Tree, t2: Tree) {
    && NoCollision(tools, t1, t2)
    && (SubjectDigest(tools, t1) == SubjectDigest(tools, t2)
        ==> SubjectStream(tools, t1, SubjectFiles(t1)) == SubjectStream(tools, t2, SubjectFiles(t2)))
  }

  /** What the subject digest is meant to stand for. */
  function SubjectView(tree: Tree): map<string, Option<string>> {
    map rel | rel in tree && IsSubject(rel) :: tree[rel]
  }

  /** No path of a checkout holds a NUL. */
  predicate NulFree(tree: Tree) {
    forall rel | rel in tree :: '\0' !in rel
  }

  lemma {:induction false} CutAtNul(a1: string, b1: string, a2: string, b2: string)
    requires '\0' !in a1 && '\0' !in a2 && a1 + ['\0'] + b1 == a2 + ['\0'] + b2
    ensures a1 == a2 && b1 == b2
  {
    var s := a1 + ['\0'] + b1;
    assert s[|a1|] == '\0' && s[|a2|] == '\0';
    assert forall i | 0 <= i < |a1| :: s[i] == a1[i] != '\0';
    assert forall i | 0 <= i < |a2| :: s[i] == a2[i] != '\0';
    assert a1 == s[..|a1|] == a2 && b1 == s[|a1| + 1..] == b2;
  }

  /** A 16-digit digest and the 12-character stand-in cannot be confused in a stream. */
  lemma {:induction false} CutAtSha(tools: Tools, t1: Tree, t2: Tree, rel: string, b1: string, b2: string)
    requires NoCollision(tools, t1, t2) && Sha(tools, t1, rel) + b1 == Sha(tools, t2, rel) + b2
    ensures Read(t1, rel) == Read(t2, rel) && b1 == b2
  {
    var s1, s2 := Sha(tools, t1, rel), Sha(tools, t2, rel);
    assert s1[0] == (s1 + b1)[0] == (s2 + b2)[0] == s2[0];
    assert UNREADABLE[0] == '<' && |s1| == |s2|;
    assert s1 == (s1 + b1)[..|s1|] == s2 && b1 == (s1 + b1)[|s1|..] == b2;
    ShaReads(tools, t1, t2, rel);
  }

  /** The stream can be decoded: equal streams list equal files with equal contents. */
  lemma {:induction false} StreamDecodes(tools: Tools, t1: Tree, t2: Tree, f1: seq<string>, f2: seq<string>)
    requires NoCollision(tools, t1, t2)
    requires (forall f | f in f1 :: '\0' !in f) && (forall f | f in f2 :: '\0' !in f)
    requires SubjectStream(tools, t1, f1) == SubjectStream(tools, t2, f2)
    ensures f1 == f2 && forall f | f in f1 :: Read(t1, f) == Read(t2, f)
  {
    if f1 == [] || f2 == [] {
      assert |SubjectStream(tools, t1, f1)| == |SubjectStream(tools, t2, f2)|;
    } else {
      CutAtNul(f1[0], Sha(tools, t1, f1[0]) + SubjectStream(tools, t1, f1[1..]),
               f2[0], Sha(tools, t2, f2[0]) + SubjectStream(tools, t2, f2[1..]));
      CutAtSha(tools, t1, t2, f1[0], SubjectStream(tools, t1, f1[1..]), SubjectStream(tools, t2, f2[1..]));
      StreamDecodes(tools, t1, t2, f1[1..], f2[1..]);
      assert f1 == [f1[0]] + f1[1..] && f2 == [f2[0]] + f2[1..];
    }
  }

  lemma {:induction false} StreamOfEqualReads(tools: Tools, t1: Tree, t2: Tree, fs: seq<string>)
    requires forall f | f in fs :: Read(t1, f) == Read(t2, f)
    ensures SubjectStream(tools, t1, fs) == SubjectStream(tools, t2, fs)
  {
    if fs != [] { StreamOfEqualReads(tools, t1, t2, fs[1..]); }
  }

  lemma {:induction false} SubjectFilesAre(tree: Tree)
    ensures forall f :: f in SubjectFiles(tree) <==> f in tree && IsSubject(f)
  {
    var s := set rel | rel in tree && IsSubject(rel);
    assert forall f :: f in SubjectFiles(tree) <==> f in s;
  }

  lemma {:induction false} ViewIsReads(tree: Tree, f: string)
    ensures f in SubjectView(tree) <==> f in tree && IsSubject(f)
    ensures f in SubjectView(tree) ==> SubjectView(tree)[f] == Read(tree, f)
  {
  }

  /** Equal subjects have one digest, whatever the digests are. */
  lemma {:induction false} ViewFixesDigest(tools: Tools, t1: Tree, t2: Tree)
    requires SubjectView(t1) == SubjectView(t2)
    ensures SubjectDigest(tools, t1) == SubjectDigest(tools, t2)
  {
    assert SubjectView(t1).Keys == set rel | rel in t1 && IsSubject(rel);
    assert SubjectView(t2).Keys == set rel | rel in t2 && IsSubject(rel);
    SubjectFilesAre(t1);
    forall f | f in SubjectFiles(t1) ensures Read(t1, f) == Read(t2, f) {
      ViewIsReads(t1, f);
      ViewIsReads(t2, f);
    }
    StreamOfEqualReads(tools, t1, t2, SubjectFiles(t1));
  }

  lemma {:induction false} DigestFixesView(tools: Tools, t1: Tree, t2: Tree)
    requires TellsApart(tools, t1, t2) && NulFree(t1) && NulFree(t2)
    requires SubjectDigest(tools, t1) == SubjectDigest(tools, t2)
    ensures SubjectView(t1) == SubjectView(t2)
  {
    SubjectFilesAre(t1);
    SubjectFilesAre(t2);
    StreamDecodes(tools, t1, t2, SubjectFiles(t1), SubjectFiles(t2));
    forall f: string
      ensures f in SubjectView(t1) <==> f in SubjectView(t2)
      ensures f in SubjectView(t1) ==> SubjectView(t1)[f] == SubjectView(t2)[f]
    {
      ViewIsReads(t1, f);
      ViewIsReads(t2, f);
      assert f in SubjectFiles(t1) <==> f in SubjectFiles(t2);
    }
  }

  /** The subject digest moves exactly when a subject file appears, vanishes or changes. */
  lemma {:induction false} SubjectDigestIsView(tools: Tools, t1: Tree, t2: Tree)
    requires TellsApart(tools, t1, t2) && NulFree(t1) && NulFree(t2)
    ensures SubjectDigest(tools, t1) == SubjectDigest(tools, t2) <==> SubjectView(t1) == SubjectView(t2)
  {
    if SubjectDigest(tools, t1) == SubjectDigest(tools, t2) { DigestFixesView(tools, t1, t2); }
    if SubjectView(t1) == SubjectView(t2) { ViewFixesDigest(tools, t1, t2); }
  }

  // ------------------------------------------------------------------ the dependency closure

  function TestPath(name: string): string {
    TESTS_SUBDIR + "/" + name
  }

  /** What a test module imports from its own directory, as far as it can be read. */
  function ImportsOf(tools: Tools, tree: Tree, name: string): set<string> {
    match Read(tree, TestPath(name))
    case Some(bytes) => tools.imports(bytes)
    case None => {}
  }

  /** A chain of imports, each step one import statement. */
  ghost predicate IsChain(tools: Tools, tree: Tree, chain: seq<string>) {
    && chain != []
    && forall i | 0 < i < |chain| :: chain[i] in ImportsOf(tools, tree, chain[i - 1])
  }

  ghost predicate ChainTo(tools: Tools, tree: Tree, chain: seq<string>, first: string, last: string) {
    IsChain(tools, tree, chain) && chain[0] == first && chain[|chain| - 1] == last
  }

  ghost predicate Imports(tools: Tools, tree: Tree, first: string, last: string) {
    exists chain :: ChainTo(tools, tree, chain, first, last)
  }

  /** Every module name a closure over this tree could mention. */
  ghost function Universe(tools: Tools, tree: Tree, name: string): set<string> {
    {name} + set p, m | p in tree && m in ImportsFrom(tools, tree, p) :: m
  }

  function ImportsFrom(tools: Tools, tree: Tree, path: string): set<string> {
    match Read(tree, path)
    case Some(bytes) => tools.imports(bytes)
    case None => {}
  }

  lemma {:induction false} ImportsExtend(tools: Tools, tree: Tree, first: string, mid: string, last: string)
    requires Imports(tools, tree, first, mid) && last in ImportsOf(tools, tree, mid)
    ensures Imports(tools, tree, first, last)
  {
    var chain :| ChainTo(tools, tree, chain, first, mid);
    var longer := chain + [last];
    forall i | 0 < i < |longer| ensures longer[i] in ImportsOf(tools, tree, longer[i - 1]) {
      if i < |chain| { assert longer[i] == chain[i] && longer[i - 1] == chain[i - 1]; }
    }
    assert ChainTo(tools, tree, longer, first, last);
  }

  /** A set closed under imports holds every chain that starts in it. */
  lemma {:induction false} ClosedHoldsChains(tools: Tools, tree: Tree, s: set<string>, chain: seq<string>)
    requires IsChain(tools, tree, chain) && chain[0] in s
    requires forall n | n in s :: ImportsOf(tools, tree, n) <= s
    ensures chain[|chain| - 1] in s
  {
    if |chain| > 1 {
      var shorter := chain[..|chain| - 1];
      forall i | 0 < i < |shorter| ensures shorter[i] in ImportsOf(tools, tree, shorter[i - 1]) {
        assert chain[i] in ImportsOf(tools, tree, chain[i - 1]);
      }
      ClosedHoldsChains(tools, tree, s, shorter);
      assert shorter[|shorter| - 1] == chain[|chain| - 2];
    }
  }

  /** The modules of the closure: those some chain of imports reaches. */
  ghost function Closure(tools: Tools, tree: Tree, name: string): set<string> {
    set n | n in Universe(tools, tree, name) && Imports(tools, tree, name, n)
  }

  lemma {:induction false} InUniverse(tools: Tools, tree: Tree, name: string, n: string, m: string)
    requires m in ImportsOf(tools, tree, n)
    ensures m in Universe(tools, tree, name)
  {
    assert TestPath(n) in tree && m in ImportsFrom(tools, tree, TestPath(n));
  }

  lemma {:induction false} NameInClosure(tools: Tools, tree: Tree, name: string)
    ensures name in Closure(tools, tree, name)
  {
    assert ChainTo(tools, tree, [name], name, name);
  }

  lemma {:induction false} ClosureIsClosed(tools: Tools, tree: Tree, name: string, n: string)
    requires n in Closure(tools, tree, name)
    ensures ImportsOf(tools, tree, n) <= Closure(tools, tree, name)
  {
    forall m | m in ImportsOf(tools, tree, n) ensures m in Closure(tools, tree, name) {
      ImportsExtend(tools, tree, name, n, m);
      InUniverse(tools, tree, name, n, m);
    }
  }

  /** The closure is the least set that holds the module and is closed under imports. */
  lemma {:induction false} ClosureIsLeast(tools: Tools, tree: Tree, name: string, s: set<string>)
    requires name in s && forall n | n in s :: ImportsOf(tools, tree, n) <= s
    ensures Closure(tools, tree, name) <= s
  {
    forall n | n in Closure(tools, tree, name) ensures n in s {
      var chain :| ChainTo(tools, tree, chain, name, n);
      ClosedHoldsChains(tools, tree, s, chain);
    }
  }

  /** Reaching is exactly membership: no chain leaves the closure. */
  lemma {:induction false} ClosureIsReachability(tools: Tools, tree: Tree, name: string, n: string)
    ensures n in Closure(tools, tree, name) <==> Imports(tools, tree, name, n)
  {
    if Imports(tools, tree, name, n) {
      var chain :| ChainTo(tools, tree, chain, name, n);
      NameInClosure(tools, tree, name);
      forall k | k in Closure(tools, tree, name) ensures ImportsOf(tools, tree, k) <= Closure(tools, tree, name) {
        ClosureIsClosed(tools, tree, name, k);
      }
      ClosedHoldsChains(tools, tree, Closure(tools, tree, name), chain);
    }
  }

  /** The paths whose contents can change a unit's outcome without changing the subject. */
  ghost function Deps(tools: Tools, tree: Tree, name: string): set<string> {
    (set n | n in Closure(tools, tree, name) :: TestPath(n)) + ALWAYS_LOADED
  }

  /** Whatever a unit imports, its evidence covers the files pytest loads for any of them, and its own module. */
  lemma {:induction false} AlwaysInDeps(tools: Tools, tree: Tree, name: string)
    ensures {"tests/conftest.py", "tests/__init__.py", "pytest.ini", TestPath(name)} <= Deps(tools, tree, name)
  {
    NameInClosure(tools, tree, name);
  }

  /** Pushes, in any order, the names not visited yet. */
  method Push(stack: seq<string>, names: set<string>, visited: set<string>) returns (pushed: seq<string>)
    ensures forall n :: n in pushed <==> n in stack || (n in names && n !in visited)
  {
    pushed := stack;
    var todo := names;
    while todo != {}
      invariant todo <= names
      invariant forall n :: n in pushed <==> n in stack || (n in names - todo && n !in visited)
    {
      var nxt :| nxt in todo;
      if nxt !in visited {
        pushed := pushed + [nxt];
      }
      todo := todo - {nxt};
    }
  }

  /** The depth-first walk, one stack of names. */
  method DepClosure(tools: Tools, tree: Tree, name: string) returns (rels: seq<string>)
    ensures rels == Sorted(Deps(tools, tree, name))
  {
    var visited: set<string>, stack := {}, [name];
    ghost var closure := Closure(tools, tree, name);
    NameInClosure(tools, tree, name);
    while stack != []
      invariant visited <= closure && forall n | n in stack :: n in closure
      invariant name in visited || name in stack
      invariant forall n | n in visited :: forall m | m in ImportsOf(tools, tree, n) :: m in visited || m in stack
      decreases closure - visited, |stack|
    {
      var cur := stack[|stack| - 1];
      ghost var before := stack;
      stack := stack[..|stack| - 1];
      assert before == stack + [cur];
      if cur in visited {
        continue;
      }
      ClosureIsClosed(tools, tree, name, cur);
      visited := visited + {cur};
      stack := Push(stack, ImportsOf(tools, tree, cur), visited);
    }
    forall n | n in visited ensures ImportsOf(tools, tree, n) <= visited {
    }
    ClosureIsLeast(tools, tree, name, visited);
    assert visited == closure;
    rels := Sorted((set n | n in visited :: TestPath(n)) + ALWAYS_LOADED);
  }

  ghost function DepDigests(tools: Tools, tree: Tree, name: string): map<string, string> {
    map rel | rel in Deps(tools, tree, name) :: Sha(tools, tree, rel)
  }

  method ReadDepDigests(tools: Tools, tree: Tree, name: string) returns (digests: map<string, string>)
    ensures digests == DepDigests(tools, tree, name)
  {
    var rels := DepClosure(tools, tree, name);
    digests := map rel | rel in rels :: Sha(tools, tree, rel);
  }

  /** What the dependency digests are meant to stand for: the closure and every content in it. */
  ghost function DepView(tools: Tools, tree: Tree, name: string): map<string, Option<string>> {
    map rel | rel in Deps(tools, tree, name) :: Read(tree, rel)
  }

  lemma {:induction false} DepDigestsAreView(tools: Tools, t1: Tree, t2: Tree, name: string)
    requires NoCollision(tools, t1, t2)
    ensures DepDigests(tools, t1, name) == DepDigests(tools, t2, name)
       <==> DepView(tools, t1, name) == DepView(tools, t2, name)
  {
    var d1, d2 := Deps(tools, t1, name), Deps(tools, t2, name);
    assert DepDigests(tools, t1, name).Keys == d1 == DepView(tools, t1, name).Keys;
    assert DepDigests(tools, t2, name).Keys == d2 == DepView(tools, t2, name).Keys;
    if d1 == d2 {
      forall rel | rel in d1
        ensures DepDigests(tools, t1, name)[rel] == DepDigests(tools, t2, name)[rel]
           <==> DepView(tools, t1, name)[rel] == DepView(tools, t2, name)[rel]
      {
        ShaReads(tools, t1, t2, rel);
      }
    }
  }

  // ------------------------------------------------------------------ the ledger

  datatype Outcome = Passed | Failed | Timeout | Error

  /** One ledger line. A key the line lacks reads as the default the module gives it. */
  datatype Entry = Entry(
    unit: string, outcome: Option<Outcome>, completed: bool, finishedAt: real,
    subjectDigest: Option<string>, subjectStable: bool,
    depDigests: Option<map<string, string>>, depsStable: bool)

  datatype State =
    | Unknown | Raced | Incomplete | StaleSubject | Unstamped | StaleDeps
    | FreshPass | FreshFail | RegistryError

  predicate Conclusive(s: State) {
    s == FreshPass || s == FreshFail
  }

  function Lookup(m: map<string, string>, k: string): Option<string> {
    if k in m then Some(m[k]) else None
  }

  /** Paths whose digest differs, with those that appeared or vanished. */
  function MovedDeps(was: map<string, string>, current: map<string, string>): seq<string> {
    Sorted(set k | k in was.Keys + current.Keys && Lookup(was, k) != Lookup(current, k))
  }

  lemma {:induction false} MovedDepsEmpty(was: map<string, string>, current: map<string, string>)
    ensures MovedDeps(was, current) == [] <==> was == current
  {
    var moved := set k | k in was.Keys + current.Keys && Lookup(was, k) != Lookup(current, k);
    if MovedDeps(was, current) == [] {
      assert forall k :: k !in moved by {
        assert forall k :: k in moved ==> k in MovedDeps(was, current);
      }
      forall k ensures Lookup(was, k) == Lookup(current, k) {
        assert k !in moved;
      }
      assert forall k :: k in was <==> Lookup(was, k) != None;
      assert forall k :: k in current <==> Lookup(current, k) != None;
    }
    if was == current {
      assert moved == {};
    }
  }

  /** The fail-closed state machine. */
  function Classify(entry: Option<Entry>, subject: string, deps: Option<map<string, string>>): State {
    match entry
    case None => Unknown
    case Some(e) =>
      if !e.subjectStable || !e.depsStable then Raced
      else if !e.completed then Incomplete
      else if e.subjectDigest != Some(subject) then StaleSubject
      else if deps.Some? && e.depDigests.None? then Unstamped
      else if deps.Some? && MovedDeps(e.depDigests.value, deps.value) != [] then StaleDeps
      else match e.outcome
           case Some(Passed) => FreshPass
           case Some(Failed) => FreshFail
           case _ => Unknown
  }

  /** The entry with the largest `finished_at` for a unit, the last written of several. */
  function Latest(entries: seq<Entry>, unit: string): Option<Entry> {
    if entries == [] then None
    else
      var cur := Latest(entries[..|entries| - 1], unit);
      var e := entries[|entries| - 1];
      if e.unit == unit && (cur.None? || e.finishedAt >= cur.value.finishedAt) then Some(e) else cur
  }

  ghost predicate IsLatest(entries: seq<Entry>, unit: string, i: nat) {
    && i < |entries| && entries[i].unit == unit
    && (forall j | 0 <= j < |entries| && entries[j].unit == unit ::
          entries[j].finishedAt <= entries[i].finishedAt && (j > i ==> entries[j].finishedAt < entries[i].finishedAt))
  }

  /** `Latest` finds it: the index of the entry, or none when the unit never ran. */
  lemma {:induction false} LatestIsLatest(entries: seq<Entry>, unit: string) returns (i: int)
    ensures Latest(entries, unit).None? ==> forall j | 0 <= j < |entries| :: entries[j].unit != unit
    ensures Latest(entries, unit).Some?
            ==> i >= 0 && IsLatest(entries, unit, i) && Latest(entries, unit) == Some(entries[i])
  {
    i := -1;
    if entries != [] {
      var n := |entries| - 1;
      i := LatestIsLatest(entries[..n], unit);
      var cur := Latest(entries[..n], unit);
      assert forall j | 0 <= j < n :: entries[j] == entries[..n][j];
      if entries[n].unit == unit && (cur.None? || entries[n].finishedAt >= cur.value.finishedAt) {
        i := n;
      }
    }
  }

  method LatestByUnit(entries: seq<Entry>, units: seq<string>) returns (best: map<string, Option<Entry>>)
    ensures best.Keys == Elems(units)
    ensures forall u | u in units :: best[u] == Latest(entries, u)
  {
    best := map[];
    for i := 0 to |units|
      invariant best.Keys == Elems(units[..i])
      invariant forall u | u in units[..i] :: best[u] == Latest(entries, u)
    {
      var cur: Option<Entry> := None;
      for j := 0 to |entries|
        invariant cur == Latest(entries[..j], units[i])
      {
        assert entries[..j + 1][..j] == entries[..j];
        var e := entries[j];
        if e.unit == units[i] && (cur.None? || e.finishedAt >= cur.value.finishedAt) {
          cur := Some(e);
        }
      }
      assert entries[..|entries|] == entries;
      assert units[..i + 1] == units[..i] + [units[i]];
      best := best[units[i] := cur];
    }
    assert units[..|units|] == units;
  }

  // ------------------------------------------------------------------ running a slice

  /** What happens around one unit: the tree before, what the runner reported, the tree after. */
  datatype Step = Step(unit: string, before: Tree, started: real, timedOut: bool, returncode: int, finished: real,
                       after: Tree)

  predicate Completed(s: Step) {
    !s.timedOut && (s.returncode == 0 || s.returncode == 1)
  }

  function OutcomeOf(s: Step): Outcome {
    if s.timedOut then Timeout
    else if s.returncode == 0 then Passed
    else if s.returncode == 1 then Failed
    else Error
  }

  ghost function EntryOf(tools: Tools, s: Step): Entry {
    Entry(s.unit, Some(OutcomeOf(s)), Completed(s), s.finished,
          Some(SubjectDigest(tools, s.before)), SubjectDigest(tools, s.before) == SubjectDigest(tools, s.after),
          Some(DepDigests(tools, s.before, s.unit)),
          DepDigests(tools, s.before, s.unit) == DepDigests(tools, s.after, s.unit))
  }

  ghost function EntriesOf(tools: Tools, steps: seq<Step>): (entries: seq<Entry>)
    ensures |entries| == |steps|
  {
    if steps == [] then []
    else EntriesOf(tools, steps[..|steps| - 1]) + [EntryOf(tools, steps[|steps| - 1])]
  }

  lemma {:induction false} EntriesStep(tools: Tools, steps: seq<Step>, i: nat)
    requires i < |steps|
    ensures EntriesOf(tools, steps[..i + 1]) == EntriesOf(tools, steps[..i]) + [EntryOf(tools, steps[i])]
  {
    assert steps[..i + 1][..i] == steps[..i] && steps[..i + 1][i] == steps[i];
  }

  lemma {:induction false} EntriesAt(tools: Tools, steps: seq<Step>, i: nat)
    requires i < |steps|
    ensures EntriesOf(tools, steps)[i] == EntryOf(tools, steps[i])
  {
    if i < |steps| - 1 { EntriesAt(tools, steps[..|steps| - 1], i); }
  }

  /** One unit: both digests read before and after the run, the closure scanned anew. */
  method RunUnit(tools: Tools, s: Step) returns (entry: Entry)
    ensures entry == EntryOf(tools, s)
  {
    var subjectBefore := SubjectDigest(tools, s.before);
    var depsBefore := ReadDepDigests(tools, s.before, s.unit);
    var subjectAfter := SubjectDigest(tools, s.after);
    var depsAfter := ReadDepDigests(tools, s.after, s.unit);
    entry := Entry(s.unit, Some(OutcomeOf(s)), Completed(s), s.finished,
                   Some(subjectBefore), subjectBefore == subjectAfter,
                   Some(depsBefore), depsBefore == depsAfter);
  }

  /** The ledger file: append-only. */
  class Ledger {
    var entries: seq<Entry>

    constructor ()
      ensures entries == []
    {
      entries := [];
    }

    method Append(entry: Entry)
      modifies this
      ensures entries == old(entries) + [entry]
    {
      entries := entries + [entry];
    }

    /** Appends exactly one entry per unit, in order, and returns what it wrote. */
    method RunSlice(tools: Tools, steps: seq<Step>) returns (written: seq<Entry>)
      modifies this
      ensures written == EntriesOf(tools, steps)
      ensures entries == old(entries) + written
    {
      ghost var base := entries;
      written := [];
      for i := 0 to |steps|
        invariant written == EntriesOf(tools, steps[..i])
        invariant entries == base + written
      {
        var entry := RunUnit(tools, steps[i]);
        EntriesStep(tools, steps, i);
        AppendAssoc(base, written, entry);
        Append(entry);
        written := written + [entry];
      }
      assert steps[..|steps|] == steps;
    }
  }

  // ------------------------------------------------------------------ status

  datatype UnitDecl = UnitDecl(id: string, file: string, registryError: bool)

  datatype Row = Row(unit: string, state: State)

  ghost function StateOf(tools: Tools, tree: Tree, u: UnitDecl, entries: seq<Entry>): State {
    var s := Classify(Latest(entries, u.id), SubjectDigest(tools, tree), Some(DepDigests(tools, tree, u.file)));
    if u.registryError && Conclusive(s) then RegistryError else s
  }

  ghost function RowsOf(tools: Tools, tree: Tree, units: seq<UnitDecl>, entries: seq<Entry>): seq<Row> {
    if units == [] then []
    else
      var n := |units| - 1;
      RowsOf(tools, tree, units[..n], entries) + [Row(units[n].id, StateOf(tools, tree, units[n], entries))]
  }

  function CountConclusive(rows: seq<Row>): nat {
    if rows == [] then 0
    else CountConclusive(rows[..|rows| - 1]) + if Conclusive(rows[|rows| - 1].state) then 1 else 0
  }

  /** One unit's state, from the ledger and the tree as it is. */
  method UnitState(tools: Tools, tree: Tree, u: UnitDecl, entries: seq<Entry>, subject: string) returns (state: State)
    requires subject == SubjectDigest(tools, tree)
    ensures state == StateOf(tools, tree, u, entries)
  {
    var best := LatestByUnit(entries, [u.id]);
    var deps := ReadDepDigests(tools, tree, u.file);
    state := Classify(best[u.id], subject, Some(deps));
    if u.registryError && Conclusive(state) {
      state := RegistryError;
    }
  }

  lemma {:induction false} CountStep(rows: seq<Row>, row: Row)
    ensures CountConclusive(rows + [row]) == CountConclusive(rows) + if Conclusive(row.state) then 1 else 0
  {
    assert (rows + [row])[..|rows|] == rows;
  }

  /** One row per unit, and how many of the rows are evidence. */
  method Status(tools: Tools, tree: Tree, units: seq<UnitDecl>, entries: seq<Entry>)
    returns (rows: seq<Row>, conclusive: nat)
    ensures rows == RowsOf(tools, tree, units, entries)
    ensures conclusive == CountConclusive(rows) == |ConclusiveRows(rows)|
  {
    var subject := SubjectDigest(tools, tree);
    rows, conclusive := [], 0;
    for i := 0 to |units|
      invariant rows == RowsOf(tools, tree, units[..i], entries)
      invariant conclusive == CountConclusive(rows)
    {
      var u := units[i];
      var state := UnitState(tools, tree, u, entries, subject);
      assert units[..i + 1][..i] == units[..i];
      CountStep(rows, Row(u.id, state));
      rows := rows + [Row(u.id, state)];
      conclusive := conclusive + if Conclusive(state) then 1 else 0;
    }
    assert units[..|units|] == units;
    ConclusiveIsCounted(rows);
  }

  /** The tree around a run, and the tree now, agree on everything that can change the outcome. */
  ghost predicate SameEvidence(tools: Tools, s: Step, now: Tree) {
    && SubjectView(s.before) == SubjectView(s.after) == SubjectView(now)
    && DepView(tools, s.before, s.unit) == DepView(tools, s.after, s.unit) == DepView(tools, now, s.unit)
  }

  /** The last run of a unit, as the ledger orders runs. */
  ghost predicate LastRun(steps: seq<Step>, unit: string, i: nat) {
    && i < |steps| && steps[i].unit == unit
    && (forall j | 0 <= j < |steps| && steps[j].unit == unit ::
          steps[j].finished <= steps[i].finished && (j > i ==> steps[j].finished < steps[i].finished))
  }

  /** A stamped entry is fresh exactly when nothing it was stamped with has moved. */
  lemma {:induction false} ClassifyStamped(unit: string, outcome: Outcome, completed: bool, finished: real,
      s0: string, s1: string, s2: string, d0: map<string, string>, d1: map<string, string>, d2: map<string, string>)
    ensures var entry := Entry(unit, Some(outcome), completed, finished, Some(s0), s0 == s1, Some(d0), d0 == d1);
            var c := Classify(Some(entry), s2, Some(d2));
            && (c == FreshPass <==> completed && outcome == Passed && s0 == s1 == s2 && d0 == d1 == d2)
            && (c == FreshFail <==> completed && outcome == Failed && s0 == s1 == s2 && d0 == d1 == d2)
  {
    MovedDepsEmpty(d0, d2);
  }

  /** What is asked of the digests and names around one run: nothing collides with what was stamped. */
  ghost predicate Trusted(tools: Tools, s: Step, now: Tree) {
    && TellsApart(tools, s.before, s.after) && TellsApart(tools, s.before, now)
    && NulFree(now) && NulFree(s.before) && NulFree(s.after)
  }

  lemma {:induction false} DigestsAreEvidence(tools: Tools, s: Step, now: Tree)
    requires Trusted(tools, s, now)
    ensures SameEvidence(tools, s, now)
       <==> && SubjectDigest(tools, s.before) == SubjectDigest(tools, s.after) == SubjectDigest(tools, now)
            && DepDigests(tools, s.before, s.unit) == DepDigests(tools, s.after, s.unit)
               == DepDigests(tools, now, s.unit)
  {
    SubjectDigestIsView(tools, s.before, s.after);
    SubjectDigestIsView(tools, s.before, now);
    DepDigestsAreView(tools, s.before, s.after, s.unit);
    DepDigestsAreView(tools, s.before, now, s.unit);
  }

  lemma {:induction false} ClassifyEntry(tools: Tools, s: Step, now: Tree)
    requires Trusted(tools, s, now)
    ensures var c := Classify(Some(EntryOf(tools, s)), SubjectDigest(tools, now), Some(DepDigests(tools, now, s.unit)));
            && (c == FreshPass <==> !s.timedOut && s.returncode == 0 && SameEvidence(tools, s, now))
            && (c == FreshFail <==> !s.timedOut && s.returncode == 1 && SameEvidence(tools, s, now))
  {
    DigestsAreEvidence(tools, s, now);
    ClassifyStamped(s.unit, OutcomeOf(s), Completed(s), s.finished,
                    SubjectDigest(tools, s.before), SubjectDigest(tools, s.after), SubjectDigest(tools, now),
                    DepDigests(tools, s.before, s.unit), DepDigests(tools, s.after, s.unit),
                    DepDigests(tools, now, s.unit));
  }

  lemma {:induction false} DepViewFixesDigests(tools: Tools, t1: Tree, t2: Tree, name: string)
    requires DepView(tools, t1, name) == DepView(tools, t2, name)
    ensures DepDigests(tools, t1, name) == DepDigests(tools, t2, name)
  {
    assert DepView(tools, t1, name).Keys == Deps(tools, t1, name);
    assert DepView(tools, t2, name).Keys == Deps(tools, t2, name);
    forall rel | rel in Deps(tools, t1, name) ensures Read(t1, rel) == Read(t2, rel) {
      assert DepView(tools, t1, name)[rel] == DepView(tools, t2, name)[rel];
    }
  }

  /** Completeness needs nothing of the digests: unmoved evidence is never called stale. */
  lemma {:induction false} EvidenceStaysFresh(tools: Tools, s: Step, now: Tree)
    requires SameEvidence(tools, s, now) && Completed(s)
    ensures Classify(Some(EntryOf(tools, s)), SubjectDigest(tools, now), Some(DepDigests(tools, now, s.unit)))
         == if s.returncode == 0 then FreshPass else FreshFail
  {
    ViewFixesDigest(tools, s.before, s.after);
    ViewFixesDigest(tools, s.before, now);
    DepViewFixesDigests(tools, s.before, s.after, s.unit);
    DepViewFixesDigests(tools, s.before, now, s.unit);
    ClassifyStamped(s.unit, OutcomeOf(s), Completed(s), s.finished,
                    SubjectDigest(tools, s.before), SubjectDigest(tools, s.after), SubjectDigest(tools, now),
                    DepDigests(tools, s.before, s.unit), DepDigests(tools, s.after, s.unit),
                    DepDigests(tools, now, s.unit));
  }

  lemma {:induction false} LatestRun(tools: Tools, steps: seq<Step>, unit: string) returns (i: int)
    ensures var latest := Latest(EntriesOf(tools, steps), unit);
            && (latest.None? ==> forall j: nat :: !LastRun(steps, unit, j))
            && (latest.Some? ==> && i >= 0 && LastRun(steps, unit, i) && latest.value == EntryOf(tools, steps[i])
                                 && forall j: nat :: LastRun(steps, unit, j) ==> j == i)
  {
    var entries := EntriesOf(tools, steps);
    i := LatestIsLatest(entries, unit);
    forall j | 0 <= j < |steps| ensures entries[j] == EntryOf(tools, steps[j]) {
      EntriesAt(tools, steps, j);
    }
    if Latest(entries, unit).Some? {
      assert LastRun(steps, unit, i) by {
        forall j | 0 <= j < |steps| && steps[j].unit == unit
          ensures steps[j].finished <= steps[i].finished && (j > i ==> steps[j].finished < steps[i].finished)
        {
          assert entries[j].finishedAt <= entries[i].finishedAt;
        }
      }
    }
  }

  /** Cache soundness and completeness: over a ledger written by `RunSlice`, a unit is a fresh pass
      exactly when its last run returned 0 and neither its subject nor its closure has moved since,
      or while it ran; and likewise for a fresh failure. */
  lemma {:induction false} FreshMeansCurrent(tools: Tools, steps: seq<Step>, unit: string, now: Tree)
    requires forall i: nat | LastRun(steps, unit, i) :: Trusted(tools, steps[i], now)
    ensures var c := StateOf(tools, now, UnitDecl(unit, unit, false), EntriesOf(tools, steps));
            && (c == FreshPass <==> exists i: nat :: LastRun(steps, unit, i) && !steps[i].timedOut
                                             && steps[i].returncode == 0 && SameEvidence(tools, steps[i], now))
            && (c == FreshFail <==> exists i: nat :: LastRun(steps, unit, i) && !steps[i].timedOut
                                             && steps[i].returncode == 1 && SameEvidence(tools, steps[i], now))
  {
    var i := LatestRun(tools, steps, unit);
    if Latest(EntriesOf(tools, steps), unit).Some? {
      ClassifyEntry(tools, steps[i], now);
    }
  }

  // ------------------------------------------------------------------ what the rows say

  lemma {:induction false} StatusRowAt(tools: Tools, tree: Tree, units: seq<UnitDecl>, entries: seq<Entry>, i: nat)
    requires i < |units|
    ensures var rows := RowsOf(tools, tree, units, entries);
            && |rows| == |units| && rows[i].unit == units[i].id
            && rows[i].state == StateOf(tools, tree, units[i], entries)
  {
    RowsLength(tools, tree, units[..|units| - 1], entries);
    if i < |units| - 1 { StatusRowAt(tools, tree, units[..|units| - 1], entries, i); }
  }

  lemma {:induction false} RowsLength(tools: Tools, tree: Tree, units: seq<UnitDecl>, entries: seq<Entry>)
    ensures |RowsOf(tools, tree, units, entries)| == |units|
  {
    if units != [] { RowsLength(tools, tree, units[..|units| - 1], entries); }
  }

  /** Each unit of the tier is its own test file, as the scan makes them. */
  ghost predicate OwnFiles(units: seq<UnitDecl>) {
    forall i | 0 <= i < |units| :: units[i].file == units[i].id
  }

  ghost predicate Ran(steps: seq<Step>, unit: string) {
    exists i :: 0 <= i < |steps| && steps[i].unit == unit
  }

  /** The last run of the unit ended with that return code, and its evidence stands. */
  ghost predicate StandsWith(tools: Tools, steps: seq<Step>, unit: string, now: Tree, returncode: int) {
    exists i: nat :: LastRun(steps, unit, i) && !steps[i].timedOut && steps[i].returncode == returncode
                     && SameEvidence(tools, steps[i], now)
  }

  /** The status view, row by row, over a ledger written by `RunSlice`: row `i` is about unit `i`; it is a
      fresh pass or failure exactly when that unit's last run ended so and its evidence stands, it is unknown
      when the unit never ran, and a unit that could not be enumerated is never evidence. */
  lemma {:induction false} StatusSays(tools: Tools, steps: seq<Step>, units: seq<UnitDecl>, now: Tree, i: nat)
    requires OwnFiles(units) && i < |units|
    requires forall k: nat | LastRun(steps, units[i].id, k) :: Trusted(tools, steps[k], now)
    ensures var rows, u := RowsOf(tools, now, units, EntriesOf(tools, steps)), units[i];
            && |rows| == |units| && rows[i].unit == u.id
            && (rows[i].state == FreshPass <==> !u.registryError && StandsWith(tools, steps, u.id, now, 0))
            && (rows[i].state == FreshFail <==> !u.registryError && StandsWith(tools, steps, u.id, now, 1))
            && (!Ran(steps, u.id) ==> rows[i].state == Unknown)
            && (u.registryError ==> !Conclusive(rows[i].state))
  {
    var u, entries := units[i], EntriesOf(tools, steps);
    StatusRowAt(tools, now, units, entries, i);
    FreshMeansCurrent(tools, steps, u.id, now);
    WithRegistryError(tools, now, u, entries);
    if !Ran(steps, u.id) { NeverRanIsUnknown(tools, steps, u, now); }
  }

  lemma {:induction false} WithRegistryError(tools: Tools, now: Tree, u: UnitDecl, entries: seq<Entry>)
    requires u.file == u.id
    ensures var plain := StateOf(tools, now, UnitDecl(u.id, u.id, false), entries);
            var state := StateOf(tools, now, u, entries);
            && (u.registryError ==> !Conclusive(state)) && (!u.registryError ==> state == plain)
            && (plain == Unknown ==> state == Unknown) && plain != RegistryError
  {
  }

  lemma {:induction false} NeverRanIsUnknown(tools: Tools, steps: seq<Step>, u: UnitDecl, now: Tree)
    requires !Ran(steps, u.id)
    ensures StateOf(tools, now, u, EntriesOf(tools, steps)) == Unknown
  {
    var entries := EntriesOf(tools, steps);
    var i := LatestIsLatest(entries, u.id);
    if Latest(entries, u.id).Some? {
      EntriesAt(tools, steps, i);
    }
  }

  function ConclusiveRows(rows: seq<Row>): set<int> {
    set i | 0 <= i < |rows| && Conclusive(rows[i].state)
  }

  /** And the count beside them is how many rows are evidence. */
  lemma {:induction false} ConclusiveIsCounted(rows: seq<Row>)
    ensures CountConclusive(rows) == |ConclusiveRows(rows)|
  {
    if rows == [] {
      assert ConclusiveRows(rows) == {};
    } else {
      var n := |rows| - 1;
      ConclusiveIsCounted(rows[..n]);
      assert ConclusiveRows(rows) == ConclusiveRows(rows[..n]) + if Conclusive(rows[n].state) then {n} else {};
    }
  }

  // ------------------------------------------------------------------ why a row is not evidence

  ghost predicate SubjectStood(s: Step) {
    SubjectView(s.before) == SubjectView(s.after)
  }

  ghost predicate DepsStood(tools: Tools, s: Step) {
    DepView(tools, s.before, s.unit) == DepView(tools, s.after, s.unit)
  }

  /** The other states, each from its cause: the tree moved while the unit ran, the run did not end in a
      verdict, the subject has moved since, or only the closure has. No run leaves an unstamped entry. */
  lemma {:induction false} StaleMeansMoved(tools: Tools, s: Step, now: Tree)
    requires Trusted(tools, s, now)
    ensures var c := Classify(Some(EntryOf(tools, s)), SubjectDigest(tools, now), Some(DepDigests(tools, now, s.unit)));
            var stood := SubjectStood(s) && DepsStood(tools, s);
            && (c == Raced <==> !stood)
            && (c == Incomplete <==> stood && (s.timedOut || (s.returncode != 0 && s.returncode != 1)))
            && (c == StaleSubject <==> stood && Completed(s) && SubjectView(s.before) != SubjectView(now))
            && (c == StaleDeps <==> && stood && Completed(s) && SubjectView(s.before) == SubjectView(now)
                                    && DepView(tools, s.before, s.unit) != DepView(tools, now, s.unit))
            && c != Unstamped && c != Unknown && c != RegistryError
  {
    SubjectDigestIsView(tools, s.before, s.after);
    SubjectDigestIsView(tools, s.before, now);
    DepDigestsAreView(tools, s.before, s.after, s.unit);
    DepDigestsAreView(tools, s.before, now, s.unit);
    WhyStale(s, SubjectDigest(tools, s.before), SubjectDigest(tools, s.after), SubjectDigest(tools, now),
             DepDigests(tools, s.before, s.unit), DepDigests(tools, s.after, s.unit), DepDigests(tools, now, s.unit));
  }

  lemma {:induction false} WhyStale(s: Step, s0: string, s1: string, s2: string, d0: map<string, string>,
      d1: map<string, string>, d2: map<string, string>)
    ensures var entry := Entry(s.unit, Some(OutcomeOf(s)), Completed(s), s.finished,
                               Some(s0), s0 == s1, Some(d0), d0 == d1);
            var c, stood := Classify(Some(entry), s2, Some(d2)), s0 == s1 && d0 == d1;
            && (c == Raced <==> !stood) && (c == Incomplete <==> stood && !Completed(s))
            && (c == StaleSubject <==> stood && Completed(s) && s0 != s2)
            && (c == StaleDeps <==> stood && Completed(s) && s0 == s2 && d0 != d2)
            && c != Unstamped && c != Unknown && c != RegistryError
  {
    MovedDepsEmpty(d0, d2);
  }

  // ------------------------------------------------------------------ digests that tell trees apart

  function IndexOf(s: seq<string>, x: string): (i: nat)
    ensures x in s ==> i < |s| && s[i] == x
    ensures i <= |s|
  {
    if s == [] || s[0] == x then 0 else 1 + IndexOf(s[1..], x)
  }

  const BASE := 50000

  /** How many codes of `d` characters there are. */
  function Codes(d: nat): nat {
    if d == 0 then 1 else Codes(d - 1) * BASE
  }

  /** The last `d` digits of `i`, each as one character past `'<'`. */
  function Digits(i: nat, d: nat): (c: string)
    ensures |c| == d && '<' !in c
  {
    if d == 0 then "" else Digits(i / BASE, d - 1) + [(100 + i % BASE) as char]
  }

  lemma {:induction false} DigitsTellApart(i: nat, j: nat, d: nat)
    requires i < Codes(d) && j < Codes(d) && Digits(i, d) == Digits(j, d)
    ensures i == j
  {
    if d > 0 {
      assert Digits(i, d)[d - 1] == Digits(j, d)[d - 1];
      assert Digits(i, d)[..d - 1] == Digits(i / BASE, d - 1) && Digits(j, d)[..d - 1] == Digits(j / BASE, d - 1);
      DigitsTellApart(i / BASE, j / BASE, d - 1);
    }
  }

  /** A code of 16 characters for each text of a list. */
  function Code(known: seq<string>, x: string): (c: string)
    ensures |c| == 16 && '<' !in c
  {
    Digits(IndexOf(known, x), 16)
  }

  lemma {:induction false} CodeTellsApart(known: seq<string>, a: string, b: string)
    requires |known| <= Codes(16) && a in known && b in known && Code(known, a) == Code(known, b)
    ensures a == b
  {
    DigitsTellApart(IndexOf(known, a), IndexOf(known, b), 16);
  }

  function AllTexts(trees: seq<Tree>): set<string> {
    if trees == [] then {} else AllTexts(trees[..|trees| - 1]) + Texts(trees[|trees| - 1])
  }

  lemma {:induction false} InAllTexts(trees: seq<Tree>, i: nat)
    requires i < |trees|
    ensures Texts(trees[i]) <= AllTexts(trees)
  {
    if i < |trees| - 1 { InAllTexts(trees[..|trees| - 1], i); }
  }

  lemma {:induction false} StreamUsesSha(t: Tools, u: Tools, tree: Tree, files: seq<string>)
    requires t.sha == u.sha
    ensures SubjectStream(t, tree, files) == SubjectStream(u, tree, files)
  {
    if files != [] { StreamUsesSha(t, u, tree, files[1..]); }
  }

  function Streams(tools: Tools, trees: seq<Tree>): (r: seq<string>)
    ensures |r| == |trees| && forall i | 0 <= i < |r| :: r[i] == SubjectStream(tools, trees[i], SubjectFiles(trees[i]))
  {
    seq(|trees|, i requires 0 <= i < |trees| => SubjectStream(tools, trees[i], SubjectFiles(trees[i])))
  }

  /** Any trees have digests of 16 characters that tell them all apart, whatever the modules import, as long
      as there are enough digests: there are more than 50000 to the power of 16. */
  lemma {:induction false} DigestsExist(trees: seq<Tree>, imports: string -> set<string>) returns (tools: Tools)
    requires |AllTexts(trees)| <= Codes(16) && |trees| <= Codes(16)
    ensures tools.imports == imports && forall x :: |tools.top(x)| == 16
    ensures forall t, u | t in trees && u in trees :: TellsApart(tools, t, u)
  {
    var known := Sorted(AllTexts(trees));
    var sha := x => Code(known, x);
    var streams := Streams(Tools(sha, x => x, imports), trees);
    tools := Tools(sha, x => Code(streams, x), imports);
    forall t, u | t in trees && u in trees ensures TellsApart(tools, t, u) {
      var i :| 0 <= i < |trees| && trees[i] == t;
      var j :| 0 <= j < |trees| && trees[j] == u;
      InAllTexts(trees, i);
      InAllTexts(trees, j);
      forall a, b | a in Texts(t) && b in Texts(u) ensures tools.sha(a) == tools.sha(b) ==> a == b {
        if tools.sha(a) == tools.sha(b) { CodeTellsApart(known, a, b); }
      }
      StreamUsesSha(Tools(sha, x => x, imports), tools, t, SubjectFiles(t));
      StreamUsesSha(Tools(sha, x => x, imports), tools, u, SubjectFiles(u));
      if SubjectDigest(tools, t) == SubjectDigest(tools, u) {
        CodeTellsApart(streams, streams[i], streams[j]);
      }
    }
  }

  // ------------------------------------------------------------------ what a commit leaves standing

  /** A commit changes, adds and removes nothing but the paths it lists. */
  ghost predicate CommitTouches(before: Tree, after: Tree, files: seq<string>) {
    forall rel | rel !in files :: (rel in before <==> rel in after) && (rel in before ==> before[rel] == after[rel])
  }

  /** A test module name as the scan produces it. */
  predicate IsTestModule(name: string) {
    EndsWith(name, ".py") && '/' !in name
  }

  ghost predicate ImportsTestModules(tools: Tools) {
    forall text, m :: m in tools.imports(text) ==> IsTestModule(m)
  }

  lemma {:induction false} TestPathIsSource(name: string)
    requires IsTestModule(name)
    ensures IsSource(TestPath(name))
  {
    SplitAt("tests", name, '/');
    assert TestPath(name) == "tests" + ['/'] + name;
    assert Split(TestPath(name), '/') == ["tests", name];
    var p := TestPath(name);
    assert p[|p| - 3..] == name[|name| - 3..];
    ModuleIsKept(name);
    assert "tests" !in IGNORED_DIRS && !EndsWith("tests", ".egg-info");
  }

  lemma {:induction false} ModuleIsKept(name: string)
    requires EndsWith(name, ".py")
    ensures name !in IGNORED_DIRS && !EndsWith(name, ".egg-info")
  {
    EndsWithLast(name, ".py");
    EndsWithLast(name, ".egg-info");
    assert forall d | d in IGNORED_DIRS :: d[|d| - 1] != 'y';
  }

  lemma {:induction false} ConftestIsSource()
    ensures IsSource("tests/conftest.py") && IsSource("tests/__init__.py")
  {
    assert "tests/conftest.py" == TestPath("conftest.py");
    assert "tests/__init__.py" == TestPath("__init__.py");
    TestPathIsSource("conftest.py");
    TestPathIsSource("__init__.py");
  }

  lemma {:induction false} SparedSource(src: set<string>, closures: map<string, set<string>>, unit: string, rel: string)
    requires unit in closures && unit !in InvalidatedBy(src, closures) && rel in src
    ensures UnderTests(rel) && rel !in closures[unit]
  {
    assert rel in closures[unit] * src <==> rel in closures[unit];
  }

  /** A change set that spares a unit touches no path of the unit's closure except `pytest.ini`, and,
      when there is any unit to spare, no subject file. */
  lemma {:induction false} SparedPaths(tools: Tools, tree: Tree, unit: string, files: seq<string>,
      closures: map<string, set<string>>)
    requires ImportsTestModules(tools) && IsTestModule(unit)
    requires unit in closures && closures[unit] == Deps(tools, tree, unit)
    requires unit !in Invalidated(files, closures)
    ensures forall rel | rel in files && IsSource(rel) :: UnderTests(rel) && rel !in Deps(tools, tree, unit)
    ensures forall rel | rel in Deps(tools, tree, unit) && rel != "pytest.ini" :: rel !in files
  {
    forall rel | rel in files && IsSource(rel) ensures UnderTests(rel) && rel !in Deps(tools, tree, unit) {
      SparedSource(Sources(files), closures, unit, rel);
    }
    forall rel | rel in Deps(tools, tree, unit) && rel != "pytest.ini" ensures IsSource(rel) {
      DepIsSource(tools, tree, unit, rel);
    }
  }

  lemma {:induction false} ChainNames(tools: Tools, tree: Tree, chain: seq<string>)
    requires ImportsTestModules(tools) && IsChain(tools, tree, chain) && IsTestModule(chain[0])
    ensures IsTestModule(chain[|chain| - 1])
  {
    if |chain| > 1 {
      assert chain[|chain| - 1] in ImportsOf(tools, tree, chain[|chain| - 2]);
    }
  }

  lemma {:induction false} DepIsSource(tools: Tools, tree: Tree, unit: string, rel: string)
    requires ImportsTestModules(tools) && IsTestModule(unit)
    requires rel in Deps(tools, tree, unit) && rel != "pytest.ini"
    ensures IsSource(rel)
  {
    ConftestIsSource();
    if rel !in ALWAYS_LOADED {
      var n :| n in Closure(tools, tree, unit) && rel == TestPath(n);
      var chain :| ChainTo(tools, tree, chain, unit, n);
      ChainNames(tools, tree, chain);
      TestPathIsSource(n);
    }
  }

  /** If no module of the closure changed, the closure is the same closure. */
  lemma {:induction false} ClosureStands(tools: Tools, before: Tree, after: Tree, unit: string)
    requires forall n | n in Closure(tools, before, unit) :: Read(before, TestPath(n)) == Read(after, TestPath(n))
    ensures Closure(tools, before, unit) == Closure(tools, after, unit)
  {
    var c := Closure(tools, before, unit);
    NameInClosure(tools, before, unit);
    forall n | n in c ensures ImportsOf(tools, after, n) <= c {
      ClosureIsClosed(tools, before, unit, n);
    }
    ClosureIsLeast(tools, after, unit, c);
    var d := Closure(tools, after, unit);
    NameInClosure(tools, after, unit);
    forall n | n in d ensures ImportsOf(tools, before, n) <= d {
      assert n in c;
      ClosureIsClosed(tools, after, unit, n);
    }
    ClosureIsLeast(tools, before, unit, d);
  }

  /** What `commit_invalidations` gets right, and the one path it misses: a unit it spares keeps its
      evidence across the commit exactly when the commit left `pytest.ini` as it was. */
  lemma {:induction false} SparedUnitsKeepEvidence(tools: Tools, before: Tree, after: Tree, unit: string,
      files: seq<string>, closures: map<string, set<string>>)
    requires ImportsTestModules(tools) && IsTestModule(unit) && CommitTouches(before, after, files)
    requires unit in closures && closures[unit] == Deps(tools, before, unit)
    requires unit !in Invalidated(files, closures)
    ensures SubjectView(before) == SubjectView(after)
    ensures DepView(tools, before, unit) == DepView(tools, after, unit)
       <==> Read(before, "pytest.ini") == Read(after, "pytest.ini")
  {
    SparedPaths(tools, before, unit, files, closures);
    SubjectStands(before, after, files);
    forall rel | rel in Deps(tools, before, unit) && rel != "pytest.ini" ensures Read(before, rel) == Read(after, rel) {
    }
    forall n | n in Closure(tools, before, unit) ensures Read(before, TestPath(n)) == Read(after, TestPath(n)) {
      assert TestPath(n) in Deps(tools, before, unit);
      assert TestPath(n)[0] != "pytest.ini"[0];
    }
    ClosureStands(tools, before, after, unit);
    assert Deps(tools, before, unit) == Deps(tools, after, unit);
    assert "pytest.ini" in Deps(tools, before, unit);
    OnePathDecides(tools, before, after, unit, "pytest.ini");
  }

  /** When all the other paths of one closure read alike, the last one decides. */
  lemma {:induction false} OnePathDecides(tools: Tools, before: Tree, after: Tree, unit: string, path: string)
    requires Deps(tools, before, unit) == Deps(tools, after, unit) && path in Deps(tools, before, unit)
    requires forall rel | rel in Deps(tools, before, unit) && rel != path :: Read(before, rel) == Read(after, rel)
    ensures DepView(tools, before, unit) == DepView(tools, after, unit) <==> Read(before, path) == Read(after, path)
  {
    var v1, v2 := DepView(tools, before, unit), DepView(tools, after, unit);
    assert v1.Keys == Deps(tools, before, unit) == v2.Keys;
    if v1 == v2 {
      assert v1[path] == v2[path];
    }
    if Read(before, path) == Read(after, path) {
      assert forall rel | rel in v1 :: v1[rel] == v2[rel];
    }
  }

  lemma {:induction false} SubjectStands(before: Tree, after: Tree, files: seq<string>)
    requires CommitTouches(before, after, files)
    requires forall rel | rel in files && IsSource(rel) :: UnderTests(rel)
    ensures SubjectView(before) == SubjectView(after)
  {
    forall rel | IsSubject(rel) ensures rel !in files {
    }
  }

  /** The miss is real: a commit to `pytest.ini` alone invalidates nothing. */
  lemma {:induction false} PytestIniIsMissed(closures: map<string, set<string>>)
    ensures Invalidated(["pytest.ini"], closures) == {}
  {
    EndsWithLast("pytest.ini", ".py");
    EndsWithLast("pytest.ini", ".lang");
  }
}
