/** harness/wiring_audit.py, the suffix index over the tracked tree and the resolver of references. A path is
    the sequence of its components. */
module WiringIndex {
  import opened Seqs
  import opened Order

  type Path = seq<string>

  type Table = map<Path, set<Path>>

  predicate EndsIn(p: Path, suffix: Path) {
    suffix != [] && |suffix| <= |p| && p[|p| - |suffix|..] == suffix
  }

  function Lookup(t: Table, k: Path): set<Path> {
    if k in t then t[k] else {}
  }

  /** Files `p` under its `i` longest suffixes. */
  function Enter(t: Table, p: Path, i: nat): Table
    requires i <= |p|
  {
    if i == 0 then t
    else
      var u := Enter(t, p, i - 1);
      u[p[i - 1..] := Lookup(u, p[i - 1..]) + {p}]
  }

  function TableOver(paths: seq<Path>): Table {
    if paths == [] then map[] else Enter(TableOver(paths[..|paths| - 1]), paths[|paths| - 1], |paths[|paths| - 1]|)
  }

  method Suffixes(paths: seq<Path>) returns (t: Table)
    ensures t == TableOver(paths)
  {
    t := map[];
    for n := 0 to |paths|
      invariant t == TableOver(paths[..n])
    {
      TakeStep(paths, n);
      var p := paths[n];
      ghost var before := t;
      for i := 0 to |p|
        invariant t == Enter(before, p, i)
      {
        t := t[p[i..] := Lookup(t, p[i..]) + {p}];
      }
    }
    TakeAll(paths);
  }

  lemma {:induction false} EnterIs(t: Table, p: Path, i: nat, k: Path)
    requires i <= |p|
    ensures Lookup(Enter(t, p, i), k) == Lookup(t, k) + (if EndsIn(p, k) && |k| > |p| - i then {p} else {})
  {
    if i > 0 {
      EnterIs(t, p, i - 1, k);
      assert EndsIn(p, p[i - 1..]);
      if |k| == |p| - (i - 1) && EndsIn(p, k) { assert k == p[i - 1..]; }
    }
  }

  /** The paths that end in `k`. */
  function Ending(paths: seq<Path>, k: Path): set<Path> {
    set p | p in paths && EndsIn(p, k)
  }

  /** The table holds, under every suffix, exactly the paths that end in it. */
  lemma {:induction false} TableIs(paths: seq<Path>, k: Path)
    ensures Lookup(TableOver(paths), k) == Ending(paths, k)
  {
    if paths != [] {
      var n := |paths| - 1;
      TableIs(paths[..n], k);
      EnterIs(TableOver(paths[..n]), paths[n], |paths[n]|, k);
      assert paths == paths[..n] + [paths[n]];
    }
  }

  // ------------------------------------------------------------------ the index

  function Prefixes(p: Path, n: nat): set<Path>
    requires n <= |p|
  {
    if n <= 1 then {} else Prefixes(p, n - 1) + {p[..n - 1]}
  }

  /** Every directory of the tree: the proper prefixes of its paths, without the root. */
  function Dirs(paths: seq<Path>): set<Path> {
    if paths == [] then {} else Dirs(paths[..|paths| - 1]) + Prefixes(paths[|paths| - 1], |paths[|paths| - 1]|)
  }

  lemma {:induction false} PrefixesAre(p: Path, n: nat, d: Path)
    requires n <= |p|
    ensures d in Prefixes(p, n) <==> 0 < |d| < n && p[..|d|] == d
  {
    if n > 1 { PrefixesAre(p, n - 1, d); }
  }

  lemma {:induction false} DirsAre(paths: seq<Path>, d: Path)
    ensures d in Dirs(paths) <==> exists p :: p in paths && 0 < |d| < |p| && p[..|d|] == d
  {
    if paths != [] {
      var n := |paths| - 1;
      DirsAre(paths[..n], d);
      PrefixesAre(paths[n], |paths[n]|, d);
      assert paths == paths[..n] + [paths[n]] && paths[n] in paths;
    }
  }

  /** `dirs` lists the directories once each, in some order. */
  datatype Tree = Tree(files: seq<Path>, dirs: seq<Path>)

  ghost predicate TreeOf(t: Tree, paths: seq<Path>) {
    t.files == paths && forall d :: d in t.dirs <==> d in Dirs(paths)
  }

  class Index {
    var files: set<Path>
    var dirs: set<Path>
    var bySuffix: Table
    var dirBySuffix: Table
    ghost var tree: Tree

    ghost predicate Valid()
      reads this
    {
      && files == Elems(tree.files) && dirs == Elems(tree.dirs)
      && bySuffix == TableOver(tree.files) && dirBySuffix == TableOver(tree.dirs)
    }

    constructor (paths: seq<Path>)
      ensures Valid() && TreeOf(tree, paths)
    {
      var ds := CollectDirs(paths);
      var listed := ListOf(ds);
      var fileTable := Suffixes(paths);
      var dirTable := Suffixes(listed);
      files, dirs := Elems(paths), ds;
      bySuffix, dirBySuffix := fileTable, dirTable;
      tree := Tree(paths, listed);
    }

    /** A token that is not empty: `parts` are its components but `""` and `.`, `base` the referring
        file's directory, and `anchored` says the token starts with `/` or `$`. */
    method ResolveReference(parts: Path, base: Path, anchored: bool) returns (r: Resolution)
      requires Valid()
      ensures r == Resolve(tree, parts, base, anchored)
    {
      if base != [] && !anchored {
        var local := NormPath(base + parts);
        if local in files {
          return File(local);
        }
        if local in dirs {
          return Dir(local);
        }
      }
      var i := 0;
      while i < |parts|
        invariant 0 <= i <= |parts|
        invariant Longest(tree, parts[i..]) == Longest(tree, parts)
      {
        var suffix := parts[i..];
        TableIs(tree.files, suffix);
        TableIs(tree.dirs, suffix);
        var hit := Lookup(bySuffix, suffix);
        if hit != {} {
          r := Judge(hit, true);
          return;
        }
        var dhit := Lookup(dirBySuffix, suffix);
        if dhit != {} {
          r := Judge(dhit, false);
          return;
        }
        assert parts[i..][1..] == parts[i + 1..];
        i := i + 1;
      }
      r := Nothing;
    }
  }

  method CollectDirs(paths: seq<Path>) returns (dirs: set<Path>)
    ensures dirs == Dirs(paths)
  {
    dirs := {};
    for n := 0 to |paths|
      invariant dirs == Dirs(paths[..n])
    {
      TakeStep(paths, n);
      var p := paths[n];
      ghost var before := dirs;
      var i := 1;
      while i < |p|
        invariant |p| <= 1 ==> dirs == before
        invariant 1 <= i && (1 <= |p| ==> i <= |p| && dirs == before + Prefixes(p, i))
      {
        dirs := dirs + {p[..i]};
        i := i + 1;
      }
      assert dirs == before + Prefixes(p, |p|);
    }
    TakeAll(paths);
  }

  method ListOf(s: set<Path>) returns (l: seq<Path>)
    ensures Elems(l) == s
  {
    l := [];
    var left := s;
    while left != {}
      invariant left <= s && Elems(l) == s - left
      decreases |left|
    {
      var p :| p in left;
      ElemsAdd(l, p);
      l := l + [p];
      left := left - {p};
    }
  }

  lemma {:induction false} ElemsAdd(l: seq<Path>, p: Path)
    ensures Elems(l + [p]) == Elems(l) + {p}
  {
    TakeStep(l + [p], |l|);
    assert (l + [p])[..|l|] == l;
    ElemsStep(l + [p], |l|);
    TakeAll(l + [p]);
  }

  // ------------------------------------------------------------------ resolving

  datatype Resolution = File(path: Path) | Dir(path: Path) | Ambiguous(candidates: seq<string>) | Nothing

  function Join(p: Path): string {
    if p == [] then "" else if |p| == 1 then p[0] else Join(p[..|p| - 1]) + "/" + p[|p| - 1]
  }

  /** `os.path.normpath` on the components of a relative path. */
  function NormPath(p: Path): Path {
    if p == [] then []
    else
      var n := |p| - 1;
      var q := NormPath(p[..n]);
      if p[n] == "" || p[n] == "." then q
      else if p[n] == ".." && q != [] && q[|q| - 1] != ".." then q[..|q| - 1]
      else q + [p[n]]
  }

  predicate PlainPart(c: string) {
    c != "" && c != "." && c != ".."
  }

  /** A path of plain components stays as it is; an empty component or "." is dropped; ".." takes back the plain
      component before it; and what is normal stays normal. */
  lemma {:induction false} NormPathSays(p: Path, c: string)
    ensures (forall x | x in p :: PlainPart(x)) ==> NormPath(p) == p
    ensures c == "" || c == "." ==> NormPath(p + [c]) == NormPath(p)
    ensures PlainPart(c) ==> NormPath(p + [c]) == NormPath(p) + [c] && NormPath(p + [c, ".."]) == NormPath(p)
    ensures NormPath(NormPath(p)) == NormPath(p)
  {
    assert (p + [c])[..|p|] == p;
    assert (p + [c, ".."])[..|p| + 1] == p + [c];
    if PlainPart(c) {
      assert NormPath(p + [c]) == NormPath(p) + [c];
      assert (NormPath(p) + [c])[..|NormPath(p)|] == NormPath(p);
    }
    PlainStays(p);
    NormIsNormal(p);
    NormalStays(NormPath(p));
  }

  lemma {:induction false} PlainStays(p: Path)
    ensures (forall x | x in p :: PlainPart(x)) ==> NormPath(p) == p
  {
    if p != [] && forall x | x in p :: PlainPart(x) {
      var n := |p| - 1;
      assert p[n] in p && p == p[..n] + [p[n]];
      PlainStays(p[..n]);
    }
  }

  /** ".."s, then plain components. */
  predicate IsNormal(p: Path) {
    p == [] || (IsNormal(p[..|p| - 1]) && (PlainPart(p[|p| - 1]) || (p[|p| - 1] == ".." && AllUp(p))))
  }

  predicate AllUp(p: Path) {
    forall x | x in p :: x == ".."
  }

  lemma {:induction false} NormIsNormal(p: Path)
    ensures IsNormal(NormPath(p))
  {
    if p != [] {
      var n := |p| - 1;
      var q := NormPath(p[..n]);
      NormIsNormal(p[..n]);
      assert (q + [p[n]])[..|q|] == q;
      if p[n] == ".." && (q == [] || q[|q| - 1] == "..") { UpAfterUp(q); }
    }
  }

  lemma {:induction false} UpAfterUp(q: Path)
    requires IsNormal(q) && (q == [] || q[|q| - 1] == "..")
    ensures AllUp(q + [".."])
  {
    if q != [] { assert AllUp(q); }
  }

  lemma {:induction false} NormalStays(p: Path)
    requires IsNormal(p)
    ensures NormPath(p) == p
  {
    if p != [] {
      var n := |p| - 1;
      NormalStays(p[..n]);
      assert p == p[..n] + [p[n]];
      if !PlainPart(p[n]) && n > 0 { assert p[n - 1] in p; }
    }
  }

  function OneOf(hit: set<Path>): (p: Path)
    requires |hit| == 1
    ensures hit == {p}
  {
    Single(hit);
    var p :| p in hit && forall q | q in hit :: q == p;
    p
  }

  lemma {:induction false} Single(hit: set<Path>)
    requires |hit| == 1
    ensures exists p :: p in hit && forall q | q in hit :: q == p
  {
    var p :| p in hit;
    assert |hit - {p}| == 0;
    assert hit == {p} + (hit - {p});
  }

  function Judge(hit: set<Path>, file: bool): Resolution
    requires hit != {}
  {
    if |hit| == 1 then (if file then File(OneOf(hit)) else Dir(OneOf(hit)))
    else Ambiguous(Sorted(set p | p in hit :: Join(p)))
  }

  /** The verdict on the longest suffix of `parts` that any file or directory ends in. */
  function Longest(t: Tree, parts: Path): Resolution {
    if parts == [] then Nothing
    else if Ending(t.files, parts) != {} then Judge(Ending(t.files, parts), true)
    else if Ending(t.dirs, parts) != {} then Judge(Ending(t.dirs, parts), false)
    else Longest(t, parts[1..])
  }

  function Resolve(t: Tree, parts: Path, base: Path, anchored: bool): Resolution {
    var local := NormPath(base + parts);
    if base != [] && !anchored && local in t.files then File(local)
    else if base != [] && !anchored && local in t.dirs then Dir(local)
    else Longest(t, parts)
  }

  /** A relative reference that names a file or directory beside its own file is that one; only otherwise is it
      looked up by its end. */
  lemma {:induction false} LocalComesFirst(t: Tree, parts: Path, base: Path, anchored: bool)
    ensures var local, beside := NormPath(base + parts), base != [] && !anchored;
            && (beside && local in t.files ==> Resolve(t, parts, base, anchored) == File(local))
            && (beside && local !in t.files && local in t.dirs ==> Resolve(t, parts, base, anchored) == Dir(local))
            && (!beside || (local !in t.files && local !in t.dirs) ==>
                  Resolve(t, parts, base, anchored) == Longest(t, parts))
  {
  }

  /** An ambiguous answer lists all the candidates, in order. */
  lemma {:induction false} JudgeSays(hit: set<Path>, file: bool)
    requires |hit| > 1
    ensures Judge(hit, file).Ambiguous? && Ascending(Judge(hit, file).candidates, Less)
    ensures forall x :: x in Judge(hit, file).candidates <==> exists p :: p in hit && Join(p) == x
  {
  }

  /** Nothing ends in `parts` or in any of its first `n` suffixes. */
  ghost predicate Unknown(t: Tree, parts: Path, n: nat)
    requires n <= |parts|
  {
    forall i | 0 <= i < n :: Ending(t.files, parts[i..]) == {} && Ending(t.dirs, parts[i..]) == {}
  }

  /** The resolver's answer is about the longest suffix that anything ends in: a file if exactly one file
      does, a directory if no file and exactly one directory does, and otherwise all the candidates. */
  lemma {:induction false} LongestSuffixDecides(t: Tree, parts: Path) returns (n: nat)
    ensures n <= |parts| && Unknown(t, parts, n)
    ensures n < |parts| ==> Longest(t, parts) != Nothing
    ensures n == |parts| <==> Longest(t, parts) == Nothing
    ensures n < |parts| ==>
      var files, dirs := Ending(t.files, parts[n..]), Ending(t.dirs, parts[n..]);
      && files + dirs != {}
      && (forall f :: Longest(t, parts) == File(f) <==> files == {f})
      && (forall d :: Longest(t, parts) == Dir(d) <==> files == {} && dirs == {d})
      && (Longest(t, parts).Ambiguous? <==> |files| > 1 || (files == {} && |dirs| > 1))
  {
    if parts == [] { return 0; }
    var files, dirs := Ending(t.files, parts), Ending(t.dirs, parts);
    assert parts[0..] == parts;
    if files != {} {
      n := 0;
      JudgeIs(files, true);
    } else if dirs != {} {
      n := 0;
      JudgeIs(dirs, false);
    } else {
      var m := LongestSuffixDecides(t, parts[1..]);
      n := m + 1;
      assert parts[1..][m..] == parts[n..];
      forall i | 0 <= i < n ensures Ending(t.files, parts[i..]) == {} && Ending(t.dirs, parts[i..]) == {} {
        if i > 0 { assert parts[1..][i - 1..] == parts[i..]; }
      }
    }
  }

  lemma {:induction false} JudgeIs(hit: set<Path>, file: bool)
    requires hit != {}
    ensures forall p :: Judge(hit, file) == File(p) <==> file && hit == {p}
    ensures forall p :: Judge(hit, file) == Dir(p) <==> !file && hit == {p}
    ensures Judge(hit, file).Ambiguous? <==> |hit| > 1
    ensures Judge(hit, file) != Nothing
  {
    var p :| p in hit;
    if |hit| == 1 {
      var q := OneOf(hit);
    } else {
      assert hit == {p} + (hit - {p}) && |hit| == 1 + |hit - {p}|;
      forall q ensures hit != {q} {
      }
    }
  }

  /** What a reference resolves to is a file or directory of the tree, and ends in some suffix of it. */
  lemma {:induction false} ResolvedExists(t: Tree, parts: Path, base: Path, anchored: bool)
    ensures var r := Resolve(t, parts, base, anchored);
            && (r.File? ==> r.path in t.files) && (r.Dir? ==> r.path in t.dirs)
            && ((r.File? || r.Dir?) ==> (base != [] && !anchored && r.path == NormPath(base + parts))
                                        || exists i :: 0 <= i < |parts| && EndsIn(r.path, parts[i..]))
  {
    var n := LongestSuffixDecides(t, parts);
    var r := Resolve(t, parts, base, anchored);
    if n < |parts| && r == Longest(t, parts) {
      if r.File? { assert r.path in Ending(t.files, parts[n..]); }
      if r.Dir? { assert r.path in Ending(t.dirs, parts[n..]); }
    }
  }

  lemma {:induction false} EndingAlone(paths: seq<Path>, p: Path)
    requires p in paths && p != []
    ensures p in Ending(paths, p)
    ensures Ending(paths, p) == {p} <==> forall q | q in paths && EndsIn(q, p) :: q == p
  {
    assert p[0..] == p;
    if forall q | q in paths && EndsIn(q, p) :: q == p {
      assert forall q | q in Ending(paths, p) :: q == p;
      assert Ending(paths, p) == {p};
    }
    if q :| q in paths && EndsIn(q, p) && q != p {
      assert q in Ending(paths, p);
    }
  }

  /** A file's full path, referred to from nowhere in particular, resolves to that file exactly when no
      other file ends in it. */
  lemma {:induction false} FullPathResolves(t: Tree, p: Path)
    requires p in t.files && p != []
    ensures Resolve(t, p, [], false) == File(p) <==> forall q | q in t.files && EndsIn(q, p) :: q == p
    ensures Resolve(t, p, [], false).File? || Resolve(t, p, [], false).Ambiguous?
  {
    EndingAlone(t.files, p);
    JudgeIs(Ending(t.files, p), true);
    assert Resolve(t, p, [], false) == Judge(Ending(t.files, p), true);
  }

  /** Only which files and directories there are matters, not the order they are listed in. */
  lemma {:induction false} OrderIsIrrelevant(t: Tree, u: Tree, parts: Path, base: Path, anchored: bool)
    requires Elems(t.files) == Elems(u.files) && Elems(t.dirs) == Elems(u.dirs)
    ensures Resolve(t, parts, base, anchored) == Resolve(u, parts, base, anchored)
  {
    assert forall p :: p in t.files <==> p in Elems(t.files);
    assert forall p :: p in u.files <==> p in Elems(u.files);
    assert forall p :: p in t.dirs <==> p in Elems(t.dirs);
    assert forall p :: p in u.dirs <==> p in Elems(u.dirs);
    LongestSame(t, u, parts);
  }

  lemma {:induction false} LongestSame(t: Tree, u: Tree, parts: Path)
    requires (forall p :: p in t.files <==> p in u.files) && (forall p :: p in t.dirs <==> p in u.dirs)
    ensures Longest(t, parts) == Longest(u, parts)
  {
    assert Ending(t.files, parts) == Ending(u.files, parts) && Ending(t.dirs, parts) == Ending(u.dirs, parts);
    if parts != [] { LongestSame(t, u, parts[1..]); }
  }
}
