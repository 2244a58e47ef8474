/** nuc/mutant_remap.py: finding the same mutation again in an edited source. */
module MutantRemap {
  import opened Text
  import opened Seqs
  import opened Order

  datatype Mutant = Mutant(id: string, op: string, description: string, lineno: int)

  datatype Def = Def(lo: int, hi: int, name: string)

  /** One revision: the mutants its source generates, its lines, and its defs and classes. */
  datatype Revision = Revision(mutants: seq<Mutant>, lines: seq<string>, defs: seq<Def>)

  /** What a mutation is, with no line number in it. */
  datatype ContentKey = ContentKey(op: string, description: string, text: string, owner: Option<string>)

  datatype Status = Matched | Moved | Ambiguous | Gone | NotInOldRevision

  datatype Detail = Detail(oldLine: int, key: ContentKey, ordinal: nat, nOld: nat, nNew: nat, newLine: Option<int>)

  datatype Row = Row(oldId: string, status: Status, newId: Option<string>, detail: Option<Detail>)

  predicate IsSpace(c: char) {
    c in " \t\n\r"
  }

  /** `str.strip` on ASCII white space. */
  function Strip(s: string): string {
    if s != "" && IsSpace(s[0]) then Strip(s[1..])
    else if s != "" && IsSpace(s[|s| - 1]) then Strip(s[..|s| - 1])
    else s
  }

  predicate Contains(d: Def, line: int) {
    d.lo <= line <= d.hi
  }

  /** The first of the shortest defs around the line. */
  function Innermost(defs: seq<Def>, line: int): Option<Def> {
    if defs == [] then None
    else
      var n := |defs| - 1;
      var best := Innermost(defs[..n], line);
      if Contains(defs[n], line) && (best.None? || defs[n].hi - defs[n].lo < best.value.hi - best.value.lo)
      then Some(defs[n]) else best
  }

  method OwnerOf(defs: seq<Def>, line: int) returns (owner: Option<string>)
    ensures owner == match Innermost(defs, line) case Some(d) => Some(d.name) case None => None
  {
    var best: Option<Def> := None;
    for i := 0 to |defs|
      invariant best == Innermost(defs[..i], line)
    {
      TakeStep(defs, i);
      if Contains(defs[i], line) {
        if best.None? || defs[i].hi - defs[i].lo < best.value.hi - best.value.lo {
          best := Some(defs[i]);
        }
      }
    }
    TakeAll(defs);
    owner := match best case Some(d) => Some(d.name) case None => None;
  }

  lemma {:induction false} InnermostIsShortest(defs: seq<Def>, line: int)
    ensures Innermost(defs, line).None? <==> forall d | d in defs :: !(d.lo <= line <= d.hi)
    ensures var best := Innermost(defs, line);
            best.Some? ==> && best.value in defs && best.value.lo <= line <= best.value.hi
                           && (forall d | d in defs && d.lo <= line <= d.hi ::
                                 best.value.hi - best.value.lo <= d.hi - d.lo)
  {
    if defs != [] {
      var n := |defs| - 1;
      InnermostIsShortest(defs[..n], line);
      assert defs == defs[..n] + [defs[n]];
    }
  }

  function LineText(lines: seq<string>, lineno: int): string {
    if 0 < lineno <= |lines| then Strip(lines[lineno - 1]) else ""
  }

  function KeyOf(r: Revision, m: Mutant): ContentKey {
    ContentKey(m.op, m.description, LineText(r.lines, m.lineno),
               match Innermost(r.defs, m.lineno) case Some(d) => Some(d.name) case None => None)
  }

  method MakeKey(r: Revision, m: Mutant) returns (key: ContentKey)
    ensures key == KeyOf(r, m)
  {
    var owner := OwnerOf(r.defs, m.lineno);
    key := ContentKey(m.op, m.description, LineText(r.lines, m.lineno), owner);
  }

  // ------------------------------------------------------------------ buckets

  /** The mutants with one key, in generation order. */
  function Bucket(r: Revision, ms: seq<Mutant>, key: ContentKey): seq<Mutant> {
    if ms == [] then []
    else
      var n := |ms| - 1;
      if KeyOf(r, ms[n]) == key then Bucket(r, ms[..n], key) + [ms[n]] else Bucket(r, ms[..n], key)
  }

  function Candidates(r: Revision, key: ContentKey): seq<Mutant> {
    Bucket(r, r.mutants, key)
  }

  /** No two mutants share an id. */
  ghost predicate Unique(ms: seq<Mutant>) {
    forall i, j {:trigger ms[i], ms[j]} | 0 <= i < j < |ms| :: ms[i].id != ms[j].id
  }

  lemma {:induction false} InBucket(r: Revision, ms: seq<Mutant>, key: ContentKey, m: Mutant)
    ensures m in Bucket(r, ms, key) <==> m in ms && KeyOf(r, m) == key
  {
    if ms != [] {
      var n := |ms| - 1;
      InBucket(r, ms[..n], key, m);
      assert ms == ms[..n] + [ms[n]];
    }
  }

  lemma {:induction false} BucketUnique(r: Revision, ms: seq<Mutant>, key: ContentKey)
    requires Unique(ms)
    ensures Unique(Bucket(r, ms, key))
  {
    if ms != [] {
      var n := |ms| - 1;
      BucketUnique(r, ms[..n], key);
      var b := Bucket(r, ms[..n], key);
      forall i | 0 <= i < |b| ensures b[i].id != ms[n].id {
        InBucket(r, ms[..n], key, b[i]);
        var k :| 0 <= k < n && ms[..n][k] == b[i];
      }
    }
  }

  /** Where the mutant with an id is. */
  function Find(ms: seq<Mutant>, id: string): (i: Option<nat>)
    ensures i.Some? ==> i.value < |ms| && ms[i.value].id == id
    ensures i.None? ==> forall m | m in ms :: m.id != id
  {
    if ms == [] then None
    else
      var n := |ms| - 1;
      assert ms == ms[..n] + [ms[n]];
      if ms[n].id == id then Some(n) else Find(ms[..n], id)
  }

  lemma {:induction false} FindAt(ms: seq<Mutant>, i: nat)
    requires Unique(ms) && i < |ms|
    ensures Find(ms, ms[i].id) == Some(i)
  {
  }

  // ------------------------------------------------------------------ the tables

  function ByKey(r: Revision, ms: seq<Mutant>): map<ContentKey, seq<Mutant>> {
    if ms == [] then map[]
    else
      var n := |ms| - 1;
      var before := ByKey(r, ms[..n]);
      var key := KeyOf(r, ms[n]);
      before[key := (if key in before then before[key] else []) + [ms[n]]]
  }

  lemma {:induction false} ByKeyIsBucket(r: Revision, ms: seq<Mutant>, key: ContentKey)
    ensures key in ByKey(r, ms) <==> Bucket(r, ms, key) != []
    ensures key in ByKey(r, ms) ==> ByKey(r, ms)[key] == Bucket(r, ms, key)
  {
    if ms != [] { ByKeyIsBucket(r, ms[..|ms| - 1], key); }
  }

  function ById(ms: seq<Mutant>): map<string, Mutant> {
    if ms == [] then map[] else ById(ms[..|ms| - 1])[ms[|ms| - 1].id := ms[|ms| - 1]]
  }

  lemma {:induction false} ByIdFinds(ms: seq<Mutant>, id: string)
    ensures id in ById(ms) <==> Find(ms, id).Some?
    ensures id in ById(ms) ==> ById(ms)[id] == ms[Find(ms, id).value]
  {
    if ms != [] { ByIdFinds(ms[..|ms| - 1], id); }
  }

  method Keyed(r: Revision) returns (byKey: map<ContentKey, seq<Mutant>>, byId: map<string, Mutant>)
    ensures byKey == ByKey(r, r.mutants) && byId == ById(r.mutants)
  {
    byKey, byId := map[], map[];
    var ms := r.mutants;
    for i := 0 to |ms|
      invariant byKey == ByKey(r, ms[..i]) && byId == ById(ms[..i])
    {
      TakeStep(ms, i);
      var key := MakeKey(r, ms[i]);
      if key !in byKey {
        byKey := byKey[key := []];
      }
      byKey := byKey[key := byKey[key] + [ms[i]]];
      byId := byId[ms[i].id := ms[i]];
    }
    TakeAll(ms);
  }

  /** `ordinal` says of `m` which key it has and its place in that key's bucket. */
  ghost predicate Ranked(ordinal: map<string, (ContentKey, nat)>, r: Revision, m: Mutant) {
    && m.id in ordinal && ordinal[m.id].0 == KeyOf(r, m)
    && ordinal[m.id].1 < |Candidates(r, KeyOf(r, m))| && Candidates(r, KeyOf(r, m))[ordinal[m.id].1] == m
  }

  /** The ordinals of one bucket; those of the other buckets' mutants stay. */
  method RankBucket(r: Revision, key: ContentKey, ms: seq<Mutant>, before: map<string, (ContentKey, nat)>)
    returns (ordinal: map<string, (ContentKey, nat)>)
    requires Unique(r.mutants) && ms == Candidates(r, key)
    ensures forall m | m in r.mutants && KeyOf(r, m) == key :: Ranked(ordinal, r, m)
    ensures forall m | m in r.mutants && Ranked(before, r, m) :: Ranked(ordinal, r, m)
  {
    ordinal := before;
    for i := 0 to |ms|
      invariant forall m | m in ms[..i] :: Ranked(ordinal, r, m)
      invariant forall m | m in r.mutants && Ranked(before, r, m) :: Ranked(ordinal, r, m)
    {
      TakeStep(ms, i);
      ghost var was := ordinal;
      InBucket(r, r.mutants, key, ms[i]);
      ordinal := ordinal[ms[i].id := (key, i)];
      assert Ranked(ordinal, r, ms[i]);
      forall m | m in r.mutants && Ranked(was, r, m) ensures Ranked(ordinal, r, m) {
        SameMutant(r.mutants, m, ms[i]);
      }
      forall m | m in ms[..i] ensures Ranked(ordinal, r, m) {
        InBucket(r, r.mutants, key, m);
        SameMutant(r.mutants, m, ms[i]);
      }
    }
    TakeAll(ms);
    forall m | m in r.mutants && KeyOf(r, m) == key ensures Ranked(ordinal, r, m) {
      InBucket(r, r.mutants, key, m);
    }
  }

  lemma {:induction false} SameMutant(ms: seq<Mutant>, m: Mutant, n: Mutant)
    requires Unique(ms) && m in ms && n in ms
    ensures m.id == n.id ==> m == n
  {
    var i :| 0 <= i < |ms| && ms[i] == m;
    var j :| 0 <= j < |ms| && ms[j] == n;
  }

  method Ordinals(r: Revision, byKey: map<ContentKey, seq<Mutant>>) returns (ordinal: map<string, (ContentKey, nat)>)
    requires Unique(r.mutants) && byKey == ByKey(r, r.mutants)
    ensures forall m | m in r.mutants :: Ranked(ordinal, r, m)
  {
    ordinal := map[];
    var left := byKey.Keys;
    forall m | m in r.mutants ensures KeyOf(r, m) in left {
      ByKeyIsBucket(r, r.mutants, KeyOf(r, m));
      InBucket(r, r.mutants, KeyOf(r, m), m);
    }
    while left != {}
      invariant left <= byKey.Keys
      invariant forall m | m in r.mutants && KeyOf(r, m) !in left :: Ranked(ordinal, r, m)
      decreases |left|
    {
      var key :| key in left;
      ByKeyIsBucket(r, r.mutants, key);
      ordinal := RankBucket(r, key, byKey[key], ordinal);
      left := left - {key};
    }
  }

  // ------------------------------------------------------------------ remap

  /** The row one requested id gets. */
  function RowOf(src: Revision, dst: Revision, id: string): Row {
    var at := Find(src.mutants, id);
    if at.None? then Row(id, NotInOldRevision, None, None)
    else
      var m := src.mutants[at.value];
      var key := KeyOf(src, m);
      var bucket, cands := Candidates(src, key), Candidates(dst, key);
      var place := Find(bucket, id);
      var i := if place.Some? then place.value else 0;
      var detail := Detail(m.lineno, key, i, |bucket|, |cands|, None);
      if cands == [] then Row(id, Gone, None, Some(detail))
      else if |cands| != |bucket| || place.None? then Row(id, Ambiguous, None, Some(detail))
      else Row(id, if cands[i].id != id then Moved else Matched, Some(cands[i].id),
               Some(detail.(newLine := Some(cands[i].lineno))))
  }

  /** The tables give the row its specification asks for. */
  lemma {:induction false} PlaceIsOrdinal(r: Revision, ordinal: map<string, (ContentKey, nat)>, m: Mutant)
    requires Unique(r.mutants) && m in r.mutants && Ranked(ordinal, r, m)
    ensures Find(Candidates(r, KeyOf(r, m)), m.id) == Some(ordinal[m.id].1)
  {
    BucketUnique(r, r.mutants, KeyOf(r, m));
    FindAt(Candidates(r, KeyOf(r, m)), ordinal[m.id].1);
  }

  datatype Report = Report(requested: nat, byStatus: map<Status, nat>, idChanged: nat, newIds: seq<string>,
                           pairs: seq<Row>)

  function CountStatus(pairs: seq<Row>, s: Status): nat {
    if pairs == [] then 0
    else CountStatus(pairs[..|pairs| - 1], s) + if pairs[|pairs| - 1].status == s then 1 else 0
  }

  function NewIds(pairs: seq<Row>): seq<string> {
    FlatMap(pairs, (p: Row) => if p.newId.Some? then [p.newId.value] else [])
  }

  function Rows(src: Revision, dst: Revision, ids: seq<string>): seq<Row> {
    Map(ids, (id: string) => RowOf(src, dst, id))
  }

  /** `remap`; `None` asks for every mutant of the old revision. */
  method Remap(src: Revision, dst: Revision, ids: Option<seq<string>>) returns (report: Report)
    requires Unique(src.mutants) && Unique(dst.mutants)
    ensures var want := if ids.Some? then ids.value else Map(src.mutants, (m: Mutant) => m.id);
            && report.requested == |want| && report.pairs == Rows(src, dst, want)
    ensures report.idChanged == CountStatus(report.pairs, Moved)
    ensures report.newIds == Arrange(NewIds(report.pairs), Less)
    ensures forall s :: CountStatus(report.pairs, s) == if s in report.byStatus then report.byStatus[s] else 0
  {
    var oldByKey, oldById := Keyed(src);
    var newByKey, newById := Keyed(dst);
    var want := if ids.Some? then ids.value else Map(src.mutants, (m: Mutant) => m.id);
    var ordinal := Ordinals(src, oldByKey);
    var pairs: seq<Row> := [];
    ghost var rowOf := (id: string) => RowOf(src, dst, id);
    for i := 0 to |want|
      invariant pairs == Map(want[..i], rowOf)
    {
      TakeStep(want, i);
      var row := MakeRow(src, dst, oldByKey, oldById, newByKey, ordinal, want[i]);
      pairs := pairs + [row];
    }
    TakeAll(want);
    var byStatus := Tally(pairs);
    report := Report(|want|, byStatus, CountStatus(pairs, Moved), Arrange(NewIds(pairs), Less), pairs);
  }

  method MakeRow(src: Revision, dst: Revision, oldByKey: map<ContentKey, seq<Mutant>>, oldById: map<string, Mutant>,
      newByKey: map<ContentKey, seq<Mutant>>, ordinal: map<string, (ContentKey, nat)>, id: string)
    returns (row: Row)
    requires Unique(src.mutants) && oldByKey == ByKey(src, src.mutants) && oldById == ById(src.mutants)
    requires newByKey == ByKey(dst, dst.mutants)
    requires forall m | m in src.mutants :: Ranked(ordinal, src, m)
    ensures row == RowOf(src, dst, id)
  {
    ByIdFinds(src.mutants, id);
    if id !in oldById {
      return Row(id, NotInOldRevision, None, None);
    }
    var m := oldById[id];
    assert Ranked(ordinal, src, m);
    PlaceIsOrdinal(src, ordinal, m);
    var (key, i) := ordinal[id];
    ByKeyIsBucket(src, src.mutants, key);
    ByKeyIsBucket(dst, dst.mutants, key);
    var cands := if key in newByKey then newByKey[key] else [];
    var detail := Detail(m.lineno, key, i, |oldByKey[key]|, |cands|, None);
    if cands == [] {
      row := Row(id, Gone, None, Some(detail));
    } else if |cands| != |oldByKey[key]| {
      row := Row(id, Ambiguous, None, Some(detail));
    } else {
      var n := cands[i];
      row := Row(id, if n.id != id then Moved else Matched, Some(n.id), Some(detail.(newLine := Some(n.lineno))));
    }
  }

  method Tally(pairs: seq<Row>) returns (byStatus: map<Status, nat>)
    ensures forall s :: CountStatus(pairs, s) == if s in byStatus then byStatus[s] else 0
  {
    byStatus := map[];
    for i := 0 to |pairs|
      invariant forall s :: CountStatus(pairs[..i], s) == if s in byStatus then byStatus[s] else 0
    {
      TakeStep(pairs, i);
      var s := pairs[i].status;
      byStatus := byStatus[s := (if s in byStatus then byStatus[s] else 0) + 1];
    }
    TakeAll(pairs);
  }

  // ------------------------------------------------------------------ a partial bijection

  /** `m` of the old revision and `n` of the new are the same mutation: same key, same place in buckets
      of the same size. */
  ghost predicate Corresponds(src: Revision, dst: Revision, m: Mutant, n: Mutant) {
    && m in src.mutants && n in dst.mutants && KeyOf(src, m) == KeyOf(dst, n)
    && |Candidates(src, KeyOf(src, m))| == |Candidates(dst, KeyOf(src, m))|
    && Find(Candidates(src, KeyOf(src, m)), m.id) == Find(Candidates(dst, KeyOf(src, m)), n.id)
  }

  lemma {:induction false} FindMember(ms: seq<Mutant>, m: Mutant)
    requires Unique(ms) && m in ms
    ensures var at := Find(ms, m.id); at.Some? && ms[at.value] == m
  {
    var i :| 0 <= i < |ms| && ms[i] == m;
    FindAt(ms, i);
  }

  lemma {:induction false} FindCandidate(r: Revision, m: Mutant)
    requires Unique(r.mutants) && m in r.mutants
    ensures var at := Find(Candidates(r, KeyOf(r, m)), m.id); at.Some? && Candidates(r, KeyOf(r, m))[at.value] == m
  {
    InBucket(r, r.mutants, KeyOf(r, m), m);
    BucketUnique(r, r.mutants, KeyOf(r, m));
    FindMember(Candidates(r, KeyOf(r, m)), m);
  }

  lemma {:induction false} CandidateIs(r: Revision, key: ContentKey, i: nat)
    requires Unique(r.mutants) && i < |Candidates(r, key)|
    ensures var n := Candidates(r, key)[i];
            n in r.mutants && KeyOf(r, n) == key && Find(Candidates(r, key), n.id) == Some(i)
  {
    InBucket(r, r.mutants, key, Candidates(r, key)[i]);
    BucketUnique(r, r.mutants, key);
    FindAt(Candidates(r, key), i);
  }

  /** An id gets a new id exactly when a mutant of the new revision corresponds to its own. */
  lemma {:induction false} RemapIsCorrespondence(src: Revision, dst: Revision, m: Mutant, n: Mutant)
    requires Unique(src.mutants) && Unique(dst.mutants) && m in src.mutants && n in dst.mutants
    ensures RowOf(src, dst, m.id).newId == Some(n.id) <==> Corresponds(src, dst, m, n)
  {
    var key := KeyOf(src, m);
    FindMember(src.mutants, m);
    FindCandidate(src, m);
    FindCandidate(dst, n);
    var i := Find(Candidates(src, key), m.id).value;
    if i < |Candidates(dst, key)| {
      CandidateIs(dst, key, i);
      SameMutant(dst.mutants, Candidates(dst, key)[i], n);
    }
  }

  /** The new id is one of the new revision's mutants. */
  lemma {:induction false} NewIdExists(src: Revision, dst: Revision, id: string) returns (m: Mutant, n: Mutant)
    requires Unique(src.mutants) && Unique(dst.mutants) && RowOf(src, dst, id).newId.Some?
    ensures m in src.mutants && n in dst.mutants && m.id == id && RowOf(src, dst, id).newId == Some(n.id)
    ensures Corresponds(src, dst, m, n)
  {
    m := src.mutants[Find(src.mutants, id).value];
    var key := KeyOf(src, m);
    FindCandidate(src, m);
    var i := Find(Candidates(src, key), id).value;
    n := Candidates(dst, key)[i];
    CandidateIs(dst, key, i);
    RemapIsCorrespondence(src, dst, m, n);
  }

  lemma {:induction false} CorrespondenceIsSymmetric(src: Revision, dst: Revision, m: Mutant, n: Mutant)
    ensures Corresponds(src, dst, m, n) <==> Corresponds(dst, src, n, m)
  {
  }

  /** Remapping with the revisions swapped undoes it, with the same status. */
  lemma {:induction false} RemapInverts(src: Revision, dst: Revision, id: string, id': string)
    requires Unique(src.mutants) && Unique(dst.mutants)
    ensures RowOf(src, dst, id).newId == Some(id') <==> RowOf(dst, src, id').newId == Some(id)
    ensures RowOf(src, dst, id).newId == Some(id') ==> RowOf(dst, src, id').status == RowOf(src, dst, id).status
  {
    if RowOf(src, dst, id).newId == Some(id') {
      var m, n := NewIdExists(src, dst, id);
      CorrespondenceIsSymmetric(src, dst, m, n);
      RemapIsCorrespondence(dst, src, n, m);
    }
    if RowOf(dst, src, id').newId == Some(id) {
      var n, m := NewIdExists(dst, src, id');
      CorrespondenceIsSymmetric(src, dst, m, n);
      RemapIsCorrespondence(src, dst, m, n);
    }
  }

  /** Different old ids never share a new id. */
  lemma {:induction false} RemapIsInjective(src: Revision, dst: Revision, a: string, b: string)
    requires Unique(src.mutants) && Unique(dst.mutants)
    requires RowOf(src, dst, a).newId.Some? && RowOf(src, dst, a).newId == RowOf(src, dst, b).newId
    ensures a == b
  {
    var id' := RowOf(src, dst, a).newId.value;
    RemapInverts(src, dst, a, id');
    RemapInverts(src, dst, b, id');
  }

  /** Carrying an id over two edits agrees with carrying it over both at once. */
  lemma {:induction false} RemapComposes(a: Revision, b: Revision, c: Revision, x: string, y: string, z: string)
    requires Unique(a.mutants) && Unique(b.mutants) && Unique(c.mutants)
    requires RowOf(a, b, x).newId == Some(y) && RowOf(b, c, y).newId == Some(z)
    ensures RowOf(a, c, x).newId == Some(z)
  {
    var m, n := NewIdExists(a, b, x);
    var n', o := NewIdExists(b, c, y);
    SameMutant(b.mutants, n, n');
    RemapIsCorrespondence(a, c, m, o);
  }

  /** An unedited source keeps every id. */
  lemma {:induction false} RemapToItself(r: Revision, m: Mutant)
    requires Unique(r.mutants) && m in r.mutants
    ensures RowOf(r, r, m.id).status == Matched && RowOf(r, r, m.id).newId == Some(m.id)
  {
    RemapIsCorrespondence(r, r, m, m);
  }

  /** When an id is refused: nothing in the new revision has its key, or the number with it changed. */
  lemma {:induction false} WhenRefused(src: Revision, dst: Revision, m: Mutant)
    requires Unique(src.mutants) && m in src.mutants
    ensures var key := KeyOf(src, m);
            var status := RowOf(src, dst, m.id).status;
            && (status == Gone <==> forall n | n in dst.mutants :: KeyOf(dst, n) != key)
            && (status == Ambiguous
                <==> Candidates(dst, key) != [] && |Candidates(dst, key)| != |Candidates(src, key)|)
  {
    var key := KeyOf(src, m);
    FindMember(src.mutants, m);
    FindCandidate(src, m);
    if Candidates(dst, key) != [] {
      InBucket(dst, dst.mutants, key, Candidates(dst, key)[0]);
    }
    forall n | n in dst.mutants ensures KeyOf(dst, n) == key ==> Candidates(dst, key) != [] {
      InBucket(dst, dst.mutants, key, n);
    }
  }

  /** The counts by status add up to the number requested. */
  /** The report's counts and its list of new ids, from the rows. */
  lemma {:induction false} ReportSays(pairs: seq<Row>, s: Status, id: string)
    ensures CountStatus(pairs, s) == |WithStatus(pairs, s)|
    ensures forall i :: i in WithStatus(pairs, s) <==> 0 <= i < |pairs| && pairs[i].status == s
    ensures id in NewIds(pairs) <==> exists p :: p in pairs && p.newId == Some(id)
  {
    CountIs(pairs, s);
    InFlatMap(pairs, (p: Row) => if p.newId.Some? then [p.newId.value] else [], id);
  }

  predicate HasStatus(p: Row, s: Status) {
    p.status == s
  }

  function WithStatus(pairs: seq<Row>, s: Status): set<int> {
    set i | 0 <= i < |pairs| && HasStatus(pairs[i], s)
  }

  lemma {:induction false} CountIs(pairs: seq<Row>, s: Status)
    ensures CountStatus(pairs, s) == |WithStatus(pairs, s)|
  {
    if pairs == [] {
      assert WithStatus(pairs, s) == {};
    } else {
      var n := |pairs| - 1;
      CountIs(pairs[..n], s);
      OneMoreStatus(pairs, s);
    }
  }

  lemma {:induction false} OneMoreStatus(pairs: seq<Row>, s: Status)
    requires pairs != []
    ensures var n := |pairs| - 1;
            |WithStatus(pairs, s)| == |WithStatus(pairs[..n], s)| + if HasStatus(pairs[n], s) then 1 else 0
  {
    var n := |pairs| - 1;
    var before := WithStatus(pairs[..n], s);
    forall i ensures i in WithStatus(pairs, s) <==> i in before || (i == n && HasStatus(pairs[n], s)) {
      if 0 <= i < n { assert pairs[..n][i] == pairs[i]; }
    }
    assert WithStatus(pairs, s) == before + if HasStatus(pairs[n], s) then {n} else {};
  }

  predicate AllSpace(s: string) {
    forall c | c in s :: IsSpace(c)
  }

  /** A stripped text is the text without its white space at both ends, and no more. */
  lemma {:induction false} StripSays(s: string) returns (before: string, after: string)
    ensures s == before + Strip(s) + after && AllSpace(before) && AllSpace(after)
    ensures Strip(s) != "" ==> !IsSpace(Strip(s)[0]) && !IsSpace(Strip(s)[|Strip(s)| - 1])
  {
    if s != "" && IsSpace(s[0]) {
      before, after := StripSays(s[1..]);
      before := [s[0]] + before;
    } else if s != "" && IsSpace(s[|s| - 1]) {
      before, after := StripSays(s[..|s| - 1]);
      after := after + [s[|s| - 1]];
    } else {
      before, after := "", "";
    }
  }

  /** The two mutations are the same mutation: of lines with the same stripped text, in the same innermost def,
      by the same operator, described alike. */
  ghost predicate SameMutation(src: Revision, m: Mutant, dst: Revision, n: Mutant) {
    && m.op == n.op && m.description == n.description
    && StrippedLine(src, m.lineno) == StrippedLine(dst, n.lineno)
    && OwnerName(src, m.lineno) == OwnerName(dst, n.lineno)
  }

  /** Lines are numbered from 1; a line that is not there reads as the empty text. */
  ghost function StrippedLine(r: Revision, lineno: int): string {
    if 1 <= lineno <= |r.lines| then Strip(r.lines[lineno - 1]) else ""
  }

  ghost function OwnerName(r: Revision, line: int): Option<string> {
    var d := Innermost(r.defs, line);
    if d.None? then None else Some(d.value.name)
  }

  /** A mutant is gone exactly when no mutant of the new revision is the same mutation, and what it is moved to
      is one that is. */
  lemma {:induction false} GoneMeansNoSameMutation(src: Revision, dst: Revision, m: Mutant)
    requires Unique(src.mutants) && m in src.mutants
    ensures var row := RowOf(src, dst, m.id);
            && (row.status == Gone <==> forall n | n in dst.mutants :: !SameMutation(src, m, dst, n))
            && (row.newId.Some? ==>
                  exists n :: n in dst.mutants && n.id == row.newId.value && SameMutation(src, m, dst, n))
  {
    var key := KeyOf(src, m);
    var i :| 0 <= i < |src.mutants| && src.mutants[i] == m;
    FindAt(src.mutants, i);
    forall n ensures n in Candidates(dst, key) <==> n in dst.mutants && SameMutation(src, m, dst, n) {
      InBucket(dst, dst.mutants, key, n);
    }
    var cands, bucket := Candidates(dst, key), Candidates(src, key);
    if cands != [] { assert cands[0] in cands; }
    var place := Find(bucket, m.id);
    if place.Some? && |cands| == |bucket| { assert cands[place.value] in cands; }
  }

  /** The status says whether the id changed, and the detail gives both lines. */
  lemma {:induction false} StatusSays(src: Revision, dst: Revision, m: Mutant)
    requires Unique(src.mutants) && m in src.mutants
    ensures var row := RowOf(src, dst, m.id);
            && row.oldId == m.id && row.detail.Some? && row.detail.value.oldLine == m.lineno
            && row.detail.value.nOld == |Candidates(src, KeyOf(src, m))|
            && row.detail.value.nNew == |Candidates(dst, KeyOf(src, m))|
            && row.detail.value.ordinal < row.detail.value.nOld
            && Candidates(src, KeyOf(src, m))[row.detail.value.ordinal] == m
            && (row.status == Matched <==> row.newId == Some(m.id))
            && (row.status == Moved <==> row.newId.Some? && row.newId != Some(m.id))
            && (row.newId.Some? <==> row.detail.value.newLine.Some?)
            && (row.newId.Some? ==> exists n :: n in dst.mutants && n.id == row.newId.value
                                                && row.detail.value.newLine == Some(n.lineno))
  {
    var key := KeyOf(src, m);
    var i :| 0 <= i < |src.mutants| && src.mutants[i] == m;
    FindAt(src.mutants, i);
    var cands, bucket := Candidates(dst, key), Candidates(src, key);
    InBucket(src, src.mutants, key, m);
    BucketUnique(src, src.mutants, key);
    var at :| 0 <= at < |bucket| && bucket[at] == m;
    FindAt(bucket, at);
    var place := Find(bucket, m.id);
    if place.Some? && |cands| == |bucket| {
      assert cands[place.value] in cands;
      InBucket(dst, dst.mutants, key, cands[place.value]);
    }
  }

  lemma {:induction false} CountsAddUp(pairs: seq<Row>)
    ensures CountStatus(pairs, Matched) + CountStatus(pairs, Moved) + CountStatus(pairs, Ambiguous)
          + CountStatus(pairs, Gone) + CountStatus(pairs, NotInOldRevision) == |pairs|
    ensures |NewIds(pairs)| <= |pairs|
  {
    if pairs != [] { CountsAddUp(pairs[..|pairs| - 1]); }
  }
}
