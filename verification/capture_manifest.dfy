/** nuc/capture_manifest.py, the retention forecast. An instant is a whole number of seconds, and the
    sweep timer's fires are the points of a lattice, one every `step` seconds. */
module CaptureManifest {
  import opened Text
  import opened Seqs
  import opened Order

  const DAY := 86400

  /** `find -mtime +N` (POSIX.1-2017, `find`, OPERANDS): the age in whole days, rounded down, exceeds `days`. */
  predicate FindMtimeMatches(age: int, days: int)
    ensures FindMtimeMatches(age, days) <==> age >= (days + 1) * DAY
  {
    age / DAY > days
  }

  // ------------------------------------------------------------------ the lattice of fires

  function FireAt(first: int, step: int, k: int): int {
    first + k * step
  }

  lemma {:induction false} FiresApart(first: int, step: int, j: int, k: int)
    requires step > 0 && j < k
    ensures FireAt(first, step, j) + step <= FireAt(first, step, k)
  {
    assert (k - j - 1) * step >= 0;
    assert (k - j - 1) * step == k * step - j * step - step;
  }

  /** A fire that is scheduled from `first` on and runs. */
  ghost predicate Runs(t: int, first: int, step: int, skipped: set<int>) {
    t !in skipped && exists k :: k >= 0 && t == FireAt(first, step, k)
  }

  /** Rounds a division up, for either sign of `a`. */
  function CeilDiv(a: int, b: int): (k: int)
    requires b > 0
    ensures a <= k * b < a + b && (a > 0 ==> k > 0)
  {
    (a + b - 1) / b
  }

  /** The index of the first fire at or after `stamp`. */
  function FirstIndex(stamp: int, first: int, step: int): (k: nat)
    requires step > 0
    ensures stamp <= FireAt(first, step, k)
    ensures k > 0 ==> FireAt(first, step, k - 1) < stamp
  {
    if stamp <= first then 0
    else
      var k := CeilDiv(stamp - first, step);
      assert (k - 1) * step == k * step - step;
      k
  }

  lemma {:induction false} BeforeFirstIndex(stamp: int, first: int, step: int, k: int)
    requires step > 0 && k >= 0 && stamp <= FireAt(first, step, k)
    ensures FirstIndex(stamp, first, step) <= k
  {
    var m := FirstIndex(stamp, first, step);
    if k + 1 < m { FiresApart(first, step, k, m - 1); }
  }

  /** The first index from `k` on whose fire is not skipped. A fire passed over cannot be met again, so
      there are at most as many steps as there are skipped fires. */
  function Unskipped(k: nat, first: int, step: int, skipped: set<int>): (m: nat)
    requires step > 0
    ensures k <= m <= k + |skipped| && FireAt(first, step, m) !in skipped
    ensures forall j | k <= j < m :: FireAt(first, step, j) in skipped
    decreases |skipped|
  {
    var t := FireAt(first, step, k);
    if t !in skipped then k
    else
      var m := Unskipped(k + 1, first, step, skipped - {t});
      FiresApart(first, step, k, m);
      m
  }

  /** The first fire at or after `stamp` that runs. */
  function NextFire(stamp: int, first: int, step: int, skipped: set<int>): (t: int)
    requires step > 0
    ensures stamp <= t && Runs(t, first, step, skipped)
  {
    FireAt(first, step, Unskipped(FirstIndex(stamp, first, step), first, step, skipped))
  }

  /** No earlier fire at or after `stamp` runs. */
  lemma {:induction false} NextFireIsFirst(stamp: int, first: int, step: int, skipped: set<int>, t: int)
    requires step > 0 && stamp <= t && Runs(t, first, step, skipped)
    ensures NextFire(stamp, first, step, skipped) <= t
  {
    var k :| k >= 0 && t == FireAt(first, step, k);
    BeforeFirstIndex(stamp, first, step, k);
    var m := Unskipped(FirstIndex(stamp, first, step), first, step, skipped);
    if m < k { FiresApart(first, step, m, k); }
  }

  /** The walk stops before its bound of `len(skipped) + 1` candidates: by the pigeonhole principle they
      cannot all be skipped. */
  lemma {:induction false} Pigeonhole(first: int, step: int, k: int, n: nat, skipped: set<int>)
    requires step > 0 && forall j | k <= j < k + n :: FireAt(first, step, j) in skipped
    ensures n <= |skipped|
    decreases n
  {
    if n > 0 {
      var t := FireAt(first, step, k);
      forall j | k + 1 <= j < k + 1 + (n - 1) ensures FireAt(first, step, j) in skipped - {t} {
        FiresApart(first, step, k, j);
      }
      Pigeonhole(first, step, k + 1, n - 1, skipped - {t});
      assert t in skipped;
    }
  }

  method NextSweepAtOrAfter(stamp: int, first: int, period: int, skipped: set<int>) returns (cand: int)
    requires period >= 1
    ensures cand == NextFire(stamp, first, period * DAY, skipped)
  {
    var step := period * DAY;
    if stamp <= first {
      cand := first;
    } else {
      cand := first + CeilDiv(stamp - first, step) * step;
    }
    ghost var k := FirstIndex(stamp, first, step);
    var i := 0;
    while i < |skipped| + 1
      invariant 0 <= i <= |skipped|
      invariant cand == FireAt(first, step, k + i)
      invariant forall j | k <= j < k + i :: FireAt(first, step, j) in skipped
      decreases |skipped| - i
    {
      if cand !in skipped {
        ghost var m := Unskipped(k, first, step, skipped);
        assert m == k + i;
        return;
      }
      cand := cand + step;
      assert (k + i + 1) * step == (k + i) * step + step;
      i := i + 1;
      Pigeonhole(first, step, k, i, skipped);
    }
  }

  // ------------------------------------------------------------------ the forecast

  datatype File = File(name: string, mtime: int)

  datatype Doomed = Doomed(name: string, mtime: int, ageUnits: int)

  datatype Spared = Spared(name: string, mtime: int, ageUnits: int, compressed: bool, sweepableAt: int, deletedAt: int)

  datatype Forecast = Forecast(
    run: int, passedOver: seq<int>, doomed: seq<Doomed>, spared: seq<Spared>, ignored: seq<string>,
    earliestSweepable: Option<int>, earliestLoss: Option<int>)

  /** When a file becomes sweepable: its age then is `history + 1` whole days. */
  function SweepableAt(mtime: int, history: int): int {
    mtime + (history + 1) * DAY
  }

  function DoomedOf(f: File, run: int): Doomed {
    Doomed(f.name, f.mtime, (run - f.mtime) / DAY)
  }

  function SparedOf(f: File, run: int, history: int, compressAfter: int): Spared {
    Spared(f.name, f.mtime, (run - f.mtime) / DAY, FindMtimeMatches(run - f.mtime, compressAfter),
           SweepableAt(f.mtime, history), NextFire(SweepableAt(f.mtime, history), run, DAY, {}))
  }

  function DoomedAmong(files: seq<File>, sweeps: string -> bool, run: int, history: int): seq<Doomed> {
    FlatMap(files, (f: File) =>
      if sweeps(f.name) && FindMtimeMatches(run - f.mtime, history) then [DoomedOf(f, run)] else [])
  }

  function SparedAmong(files: seq<File>, sweeps: string -> bool, run: int, history: int,
      compressAfter: int): seq<Spared> {
    FlatMap(files, (f: File) =>
      if sweeps(f.name) && !FindMtimeMatches(run - f.mtime, history) then [SparedOf(f, run, history, compressAfter)]
      else [])
  }

  function IgnoredAmong(files: seq<File>, sweeps: string -> bool): seq<string> {
    FlatMap(files, (f: File) => if sweeps(f.name) then [] else [f.name])
  }

  /** Python's `min(..., default=None)`. */
  function MinOf(s: seq<int>): (m: Option<int>)
    ensures m.None? <==> s == []
    ensures m.Some? ==> m.value in s && forall x | x in s :: m.value <= x
  {
    if s == [] then None
    else
      var n := |s| - 1;
      assert s == s[..n] + [s[n]];
      var rest := MinOf(s[..n]);
      if rest.Some? && rest.value <= s[n] then rest else Some(s[n])
  }

  function Sweepables(spared: seq<Spared>): seq<int> {
    Map(spared, (r: Spared) => r.sweepableAt)
  }

  function Deletions(spared: seq<Spared>): seq<int> {
    Map(spared, (r: Spared) => r.deletedAt)
  }

  /** `sweeps` says which names the sweep's pattern matches. */
  method RetentionForecast(files: seq<File>, requested: int, history: int, compressAfter: int, sweeps: string -> bool,
      skipped: set<int>, period: int)
    returns (r: Forecast)
    requires period >= 1
    ensures r.run == NextFire(requested, requested, period * DAY, skipped)
    ensures Ascending(r.passedOver, IntLess)
    ensures forall f :: f in r.passedOver <==> f in skipped && requested <= f < r.run
    ensures r.doomed == DoomedAmong(files, sweeps, r.run, history)
    ensures r.spared == SparedAmong(files, sweeps, r.run, history, compressAfter)
    ensures r.ignored == Arrange(IgnoredAmong(files, sweeps), Less)
    ensures r.earliestSweepable == MinOf(Sweepables(r.spared))
    ensures r.earliestLoss == MinOf(Deletions(r.spared))
    ensures forall d :: d in r.doomed
                        <==> exists f :: f in files && GoesAtRun(f, sweeps, requested, history, skipped, period)
                                         && DoomedRow(d, f, r.run)
    ensures |r.doomed| + |r.spared| + |r.ignored| == |files|
    ensures NamesDoomed(r.doomed) + NamesSpared(r.spared) + multiset(r.ignored) == NamesOf(files)
  {
    var run := NextSweepAtOrAfter(requested, requested, period, skipped);
    var passedOver := SortedInts(set f | f in skipped && requested <= f < run);
    var doomed, spared, ignored := SortFiles(files, run, history, compressAfter, sweeps);
    r := Forecast(run, passedOver, doomed, spared, Arrange(ignored, Less), MinOf(Sweepables(spared)),
                  MinOf(Deletions(spared)));
    forall d
      ensures d in r.doomed
              <==> exists f :: f in files && GoesAtRun(f, sweeps, requested, history, skipped, period)
                                   && DoomedRow(d, f, run)
    {
      DoomedAre(files, sweeps, requested, history, skipped, period, d);
    }
    EveryFileIsListed(files, sweeps, run, history, compressAfter);
    ArrangeKeeps(ignored);
  }

  lemma {:induction false} ArrangeKeeps(names: seq<string>)
    ensures multiset(Arrange(names, Less)) == multiset(names) && |Arrange(names, Less)| == |names|
  {
    ArrangeIsPermutation(names, Less);
    assert |multiset(Arrange(names, Less))| == |Arrange(names, Less)| && |multiset(names)| == |names|;
  }

  /** The loop over the files. */
  method SortFiles(files: seq<File>, run: int, history: int, compressAfter: int, sweeps: string -> bool)
    returns (doomed: seq<Doomed>, spared: seq<Spared>, ignored: seq<string>)
    ensures doomed == DoomedAmong(files, sweeps, run, history)
    ensures spared == SparedAmong(files, sweeps, run, history, compressAfter)
    ensures ignored == IgnoredAmong(files, sweeps)
  {
    doomed, spared, ignored := [], [], [];
    for i := 0 to |files|
      invariant doomed == DoomedAmong(files[..i], sweeps, run, history)
      invariant spared == SparedAmong(files[..i], sweeps, run, history, compressAfter)
      invariant ignored == IgnoredAmong(files[..i], sweeps)
    {
      TakeStep(files, i);
      var f := files[i];
      if !sweeps(f.name) {
        ignored := ignored + [f.name];
        continue;
      }
      var age := run - f.mtime;
      if FindMtimeMatches(age, history) {
        doomed := doomed + [Doomed(f.name, f.mtime, age / DAY)];
      } else {
        var sweepableAt := f.mtime + (history + 1) * DAY;
        var deletedAt := NextSweepAtOrAfter(sweepableAt, run, 1, {});
        spared := spared + [Spared(f.name, f.mtime, age / DAY, FindMtimeMatches(age, compressAfter), sweepableAt,
                                   deletedAt)];
      }
    }
    TakeAll(files);
  }

  // ------------------------------------------------------------------ simulating the sweep

  /** What the box does: at each of the first `n` fires that runs, delete the file if `find` matches it. */
  function Swept(mtime: int, history: int, first: int, step: int, skipped: set<int>, n: nat): Option<int> {
    if n == 0 then None
    else
      var before := Swept(mtime, history, first, step, skipped, n - 1);
      var t := FireAt(first, step, n - 1);
      if before.Some? then before
      else if t !in skipped && FindMtimeMatches(t - mtime, history) then Some(t)
      else None
  }

  /** The first fire that runs and matches the file. */
  function Deletion(mtime: int, history: int, first: int, step: int, skipped: set<int>): int
    requires step > 0
  {
    NextFire(SweepableAt(mtime, history), first, step, skipped)
  }

  /** A file sweepable at an instant is sweepable ever after, and the closed form is what the simulated
      box does: once it has come to that fire the file is gone, and before that it is there. */
  lemma {:induction false} SimulationAgrees(mtime: int, history: int, first: int, step: int, skipped: set<int>, n: nat)
    requires step > 0
    ensures var m := Unskipped(FirstIndex(SweepableAt(mtime, history), first, step), first, step, skipped);
            && FireAt(first, step, m) == Deletion(mtime, history, first, step, skipped)
            && Swept(mtime, history, first, step, skipped, n)
               == if n > m then Some(Deletion(mtime, history, first, step, skipped)) else None
  {
    if n > 0 {
      SimulationAgrees(mtime, history, first, step, skipped, n - 1);
      var k := FirstIndex(SweepableAt(mtime, history), first, step);
      if n - 1 < k {
        assert !FindMtimeMatches(FireAt(first, step, n - 1) - mtime, history) by {
          if n - 1 < k - 1 { FiresApart(first, step, n - 1, k - 1); }
        }
      } else if n - 1 < Unskipped(k, first, step, skipped) {
        assert FireAt(first, step, n - 1) in skipped;
      }
    }
  }

  /** Every fire from `run` on is a daily one. */
  lemma {:induction false} RunsDaily(t: int, requested: int, period: int, skipped: set<int>, run: int)
    requires period >= 1 && Runs(run, requested, period * DAY, skipped) && Runs(t, requested, period * DAY, skipped)
            && run <= t
    ensures Runs(t, run, DAY, {})
  {
    var step := period * DAY;
    var j :| j >= 0 && run == FireAt(requested, step, j);
    var k :| k >= 0 && t == FireAt(requested, step, k);
    if k < j { FiresApart(requested, step, k, j); }
    assert k * step - j * step == ((k - j) * period) * DAY;
    assert (k - j) * period >= 0;
    assert t == FireAt(run, DAY, (k - j) * period);
  }

  /** A file is doomed exactly when the next fire that runs is the one that deletes it. */
  lemma {:induction false} DoomedMeansDeletedAtRun(mtime: int, history: int, requested: int, period: int,
      skipped: set<int>)
    requires period >= 1
    ensures var run := NextFire(requested, requested, period * DAY, skipped);
            && Deletion(mtime, history, requested, period * DAY, skipped) >= run
            && (FindMtimeMatches(run - mtime, history)
                <==> Deletion(mtime, history, requested, period * DAY, skipped) == run)
  {
    var step := period * DAY;
    var run := NextFire(requested, requested, step, skipped);
    var gone := Deletion(mtime, history, requested, step, skipped);
    var k :| k >= 0 && gone == FireAt(requested, step, k);
    assert k * step >= 0;
    NextFireIsFirst(requested, requested, step, skipped, gone);
    if FindMtimeMatches(run - mtime, history) {
      NextFireIsFirst(SweepableAt(mtime, history), requested, step, skipped, run);
    }
  }

  /** The forecast's deletion instant for a spared file is never after the real one, and is the real one
      exactly when a fire is scheduled then and is not skipped. */
  lemma {:induction false} ForecastIsEarliestLoss(f: File, requested: int, history: int, compressAfter: int,
      period: int, skipped: set<int>)
    requires period >= 1
    requires !FindMtimeMatches(NextFire(requested, requested, period * DAY, skipped) - f.mtime, history)
    ensures var run := NextFire(requested, requested, period * DAY, skipped);
            var deletedAt := SparedOf(f, run, history, compressAfter).deletedAt;
            && run < deletedAt <= Deletion(f.mtime, history, requested, period * DAY, skipped)
            && (deletedAt == Deletion(f.mtime, history, requested, period * DAY, skipped)
                <==> Runs(deletedAt, requested, period * DAY, skipped))
  {
    var step := period * DAY;
    var run := NextFire(requested, requested, step, skipped);
    var sweepableAt := SweepableAt(f.mtime, history);
    var gone := Deletion(f.mtime, history, requested, step, skipped);
    DoomedMeansDeletedAtRun(f.mtime, history, requested, period, skipped);
    RunsDaily(gone, requested, period, skipped, run);
    NextFireIsFirst(sweepableAt, run, DAY, {}, gone);
    var deletedAt := NextFire(sweepableAt, run, DAY, {});
    if Runs(deletedAt, requested, step, skipped) {
      NextFireIsFirst(sweepableAt, requested, step, skipped, deletedAt);
    }
  }

  /** With a daily timer, that is when the instant is not a skipped one. */
  lemma {:induction false} DailyForecastIsExact(f: File, requested: int, history: int, compressAfter: int,
      skipped: set<int>)
    requires !FindMtimeMatches(NextFire(requested, requested, DAY, skipped) - f.mtime, history)
    ensures var run := NextFire(requested, requested, DAY, skipped);
            SparedOf(f, run, history, compressAfter).deletedAt == Deletion(f.mtime, history, requested, DAY, skipped)
            <==> NextFire(SweepableAt(f.mtime, history), run, DAY, {}) !in skipped
  {
    var run := NextFire(requested, requested, DAY, skipped);
    var deletedAt := SparedOf(f, run, history, compressAfter).deletedAt;
    ForecastIsEarliestLoss(f, requested, history, compressAfter, 1, skipped);
    var j :| j >= 0 && run == FireAt(requested, DAY, j);
    var k :| k >= 0 && deletedAt == FireAt(run, DAY, k);
    assert deletedAt == FireAt(requested, DAY, j + k);
  }

  /** The forecast looks at the skipped fires only to find `run`: one after it is still named. */
  lemma {:induction false} SkippedLaterFireIsNamed()
    ensures var f := File("sa23", 0);
            var skipped := {8 * DAY};
            var run := NextFire(7 * DAY, 7 * DAY, DAY, skipped);
            && !FindMtimeMatches(run - f.mtime, 7)
            && SparedOf(f, run, 7, 10).deletedAt == 8 * DAY
            && Deletion(f.mtime, 7, 7 * DAY, DAY, skipped) == 9 * DAY
  {
    var skipped := {8 * DAY};
    assert FireAt(7 * DAY, DAY, 0) == 7 * DAY && FireAt(7 * DAY, DAY, 1) == 8 * DAY
        && FireAt(7 * DAY, DAY, 2) == 9 * DAY;
    assert Runs(7 * DAY, 7 * DAY, DAY, skipped) && Runs(9 * DAY, 7 * DAY, DAY, skipped)
        && Runs(8 * DAY, 7 * DAY, DAY, {});
    NextFireIsFirst(7 * DAY, 7 * DAY, DAY, skipped, 7 * DAY);
    NextFireIsFirst(8 * DAY, 7 * DAY, DAY, {}, 8 * DAY);
    NextFireIsFirst(8 * DAY, 7 * DAY, DAY, skipped, 9 * DAY);
    var gone := NextFire(8 * DAY, 7 * DAY, DAY, skipped);
    var k :| k >= 0 && gone == FireAt(7 * DAY, DAY, k);
    assert k == 2;
  }

  // ------------------------------------------------------------------ the deadline

  ghost predicate SparedFile(r: Spared, f: File, sweeps: string -> bool, run: int, history: int, compressAfter: int) {
    sweeps(f.name) && !FindMtimeMatches(run - f.mtime, history) && r == SparedOf(f, run, history, compressAfter)
  }

  /** `spared` lists exactly the swept-for files that outlive `run`. */
  lemma {:induction false} SparedAre(files: seq<File>, sweeps: string -> bool, run: int, history: int,
      compressAfter: int, r: Spared)
    ensures r in SparedAmong(files, sweeps, run, history, compressAfter)
       <==> exists f :: f in files && SparedFile(r, f, sweeps, run, history, compressAfter)
  {
    var of := (f: File) =>
      if sweeps(f.name) && !FindMtimeMatches(run - f.mtime, history) then [SparedOf(f, run, history, compressAfter)]
      else [];
    InFlatMap(files, of, r);
    forall f: File ensures r in of(f) <==> SparedFile(r, f, sweeps, run, history, compressAfter) {
    }
  }

  lemma {:induction false} InDeletions(spared: seq<Spared>, r: Spared)
    requires r in spared
    ensures r.deletedAt in Deletions(spared)
  {
    var n := |spared| - 1;
    assert spared == spared[..n] + [spared[n]];
    if r != spared[n] { InDeletions(spared[..n], r); }
  }

  /** A `doomed` row of a file: its own name and modification time, and its age in whole days at `run`. */
  ghost predicate DoomedRow(d: Doomed, f: File, run: int) {
    d.name == f.name && d.mtime == f.mtime && d.ageUnits * DAY <= run - f.mtime < (d.ageUnits + 1) * DAY
  }

  /** A `spared` row: likewise, with whether the file is compressed by then and from when on `find` would
      match it. */
  ghost predicate SparedRow(s: Spared, f: File, run: int, history: int, compressAfter: int) {
    && s.name == f.name && s.mtime == f.mtime && s.ageUnits * DAY <= run - f.mtime < (s.ageUnits + 1) * DAY
    && (s.compressed <==> s.ageUnits > compressAfter)
    && forall age: int :: FindMtimeMatches(age, history) <==> f.mtime + age >= s.sweepableAt
  }

  lemma {:induction false} AgeIs(f: File, run: int, history: int, compressAfter: int)
    ensures DoomedRow(DoomedOf(f, run), f, run)
    ensures SparedRow(SparedOf(f, run, history, compressAfter), f, run, history, compressAfter)
  {
    var s := SparedOf(f, run, history, compressAfter);
    WholeDays(run - f.mtime, compressAfter);
    forall age: int ensures FindMtimeMatches(age, history) <==> f.mtime + age >= s.sweepableAt {
      WholeDays(age, history);
    }
  }

  lemma {:induction false} WholeDays(age: int, days: int)
    ensures FindMtimeMatches(age, days) <==> age >= (days + 1) * DAY
    ensures FindMtimeMatches(age, days) <==> age / DAY > days
    ensures age / DAY * DAY <= age < (age / DAY + 1) * DAY
  {
  }

  lemma {:induction false} SameRow(d: Doomed, f: File, run: int)
    requires DoomedRow(d, f, run)
    ensures d == DoomedOf(f, run)
  {
    WholeDays(run - f.mtime, 0);
  }

  /** The file is swept for, and the sweep at `run` is the one that deletes it. */
  ghost predicate GoesAtRun(f: File, sweeps: string -> bool, requested: int, history: int, skipped: set<int>,
      period: int)
    requires period >= 1
  {
    sweeps(f.name) && Deletion(f.mtime, history, requested, period * DAY, skipped)
                      == NextFire(requested, requested, period * DAY, skipped)
  }

  ghost predicate GoesLater(f: File, sweeps: string -> bool, requested: int, history: int, skipped: set<int>,
      period: int)
    requires period >= 1
  {
    sweeps(f.name) && Deletion(f.mtime, history, requested, period * DAY, skipped)
                      > NextFire(requested, requested, period * DAY, skipped)
  }

  /** The list of what the next sweep deletes holds exactly the rows of the files it does delete. */
  lemma {:induction false} DoomedAre(files: seq<File>, sweeps: string -> bool, requested: int, history: int,
      skipped: set<int>, period: int, d: Doomed)
    requires period >= 1
    ensures var run := NextFire(requested, requested, period * DAY, skipped);
            d in DoomedAmong(files, sweeps, run, history)
            <==> exists f :: f in files && GoesAtRun(f, sweeps, requested, history, skipped, period)
                                 && DoomedRow(d, f, run)
  {
    var run := NextFire(requested, requested, period * DAY, skipped);
    var of := (f: File) =>
      if sweeps(f.name) && FindMtimeMatches(run - f.mtime, history) then [DoomedOf(f, run)] else [];
    InFlatMap(files, of, d);
    forall f: File
      ensures d in of(f) <==> GoesAtRun(f, sweeps, requested, history, skipped, period) && DoomedRow(d, f, run)
    {
      DoomedMeansDeletedAtRun(f.mtime, history, requested, period, skipped);
      AgeIs(f, run, history, 0);
      if DoomedRow(d, f, run) { SameRow(d, f, run); }
    }
  }

  /** And the list of what it spares has a row for exactly the files deleted later. */
  lemma {:induction false} SparedHave(files: seq<File>, sweeps: string -> bool, requested: int, history: int,
      compressAfter: int, skipped: set<int>, period: int)
    requires period >= 1
    ensures var run := NextFire(requested, requested, period * DAY, skipped);
            var spared := SparedAmong(files, sweeps, run, history, compressAfter);
            && (forall s | s in spared :: exists f :: f in files && SparedRow(s, f, run, history, compressAfter)
                                                   && GoesLater(f, sweeps, requested, history, skipped, period))
            && (forall f | f in files && GoesLater(f, sweeps, requested, history, skipped, period) ::
                  exists s :: s in spared && SparedRow(s, f, run, history, compressAfter))
  {
    var run := NextFire(requested, requested, period * DAY, skipped);
    var spared := SparedAmong(files, sweeps, run, history, compressAfter);
    forall s | s in spared
      ensures exists f :: f in files && SparedRow(s, f, run, history, compressAfter)
                          && GoesLater(f, sweeps, requested, history, skipped, period)
    {
      SparedAre(files, sweeps, run, history, compressAfter, s);
      var f :| f in files && SparedFile(s, f, sweeps, run, history, compressAfter);
      DoomedMeansDeletedAtRun(f.mtime, history, requested, period, skipped);
      AgeIs(f, run, history, compressAfter);
    }
    forall f | f in files && GoesLater(f, sweeps, requested, history, skipped, period)
      ensures exists s :: s in spared && SparedRow(s, f, run, history, compressAfter)
    {
      var s := SparedOf(f, run, history, compressAfter);
      DoomedMeansDeletedAtRun(f.mtime, history, requested, period, skipped);
      assert SparedFile(s, f, sweeps, run, history, compressAfter);
      SparedAre(files, sweeps, run, history, compressAfter, s);
      AgeIs(f, run, history, compressAfter);
    }
  }

  /** The two dates of the forecast are the earliest of its spared rows', and are missing only when nothing is
      spared. */
  lemma {:induction false} EarliestSay(spared: seq<Spared>)
    ensures var first := MinOf(Sweepables(spared));
            && (first.None? <==> spared == [])
            && (first.Some? ==> (exists s :: s in spared && s.sweepableAt == first.value)
                                && forall s | s in spared :: first.value <= s.sweepableAt)
    ensures var first := MinOf(Deletions(spared));
            && (first.None? <==> spared == [])
            && (first.Some? ==> (exists s :: s in spared && s.deletedAt == first.value)
                                && forall s | s in spared :: first.value <= s.deletedAt)
  {
    forall x ensures x in Sweepables(spared) <==> exists s :: s in spared && s.sweepableAt == x {
      InColumn(spared, (s: Spared) => s.sweepableAt, x);
    }
    forall x ensures x in Deletions(spared) <==> exists s :: s in spared && s.deletedAt == x {
      InColumn(spared, (s: Spared) => s.deletedAt, x);
    }
    forall s | s in spared ensures s.sweepableAt in Sweepables(spared) && s.deletedAt in Deletions(spared) {
      InColumn(spared, (s: Spared) => s.sweepableAt, s.sweepableAt);
      InColumn(spared, (s: Spared) => s.deletedAt, s.deletedAt);
    }
  }

  lemma {:induction false} InColumn(spared: seq<Spared>, f: Spared -> int, x: int)
    ensures x in Map(spared, f) <==> exists s :: s in spared && f(s) == x
  {
    if spared != [] {
      var n := |spared| - 1;
      InColumn(spared[..n], f, x);
      assert spared == spared[..n] + [spared[n]] && spared[n] in spared;
    }
  }

  function NamesDoomed(doomed: seq<Doomed>): multiset<string> {
    if doomed == [] then multiset{} else NamesDoomed(doomed[..|doomed| - 1]) + multiset{doomed[|doomed| - 1].name}
  }

  function NamesSpared(spared: seq<Spared>): multiset<string> {
    if spared == [] then multiset{} else NamesSpared(spared[..|spared| - 1]) + multiset{spared[|spared| - 1].name}
  }

  function NamesOf(files: seq<File>): multiset<string> {
    if files == [] then multiset{} else NamesOf(files[..|files| - 1]) + multiset{files[|files| - 1].name}
  }

  lemma {:induction false} NamesAdd(doomed: seq<Doomed>, d: Doomed, spared: seq<Spared>, s: Spared)
    ensures NamesDoomed(doomed + [d]) == NamesDoomed(doomed) + multiset{d.name}
    ensures NamesSpared(spared + [s]) == NamesSpared(spared) + multiset{s.name}
  {
    assert (doomed + [d])[..|doomed|] == doomed;
    assert (spared + [s])[..|spared|] == spared;
  }

  /** Every file lands in exactly one of the three lists, as often as it is listed. */
  lemma {:induction false} EveryFileIsListed(files: seq<File>, sweeps: string -> bool, run: int, history: int,
      compressAfter: int)
    ensures var doomed := DoomedAmong(files, sweeps, run, history);
            var spared := SparedAmong(files, sweeps, run, history, compressAfter);
            var ignored := IgnoredAmong(files, sweeps);
            && |doomed| + |spared| + |ignored| == |files|
            && NamesDoomed(doomed) + NamesSpared(spared) + multiset(ignored) == NamesOf(files)
  {
    if files != [] {
      var n, f := |files| - 1, files[|files| - 1];
      EveryFileIsListed(files[..n], sweeps, run, history, compressAfter);
      OneMoreFile(files, sweeps, run, history, compressAfter);
      OneMoreRow(DoomedAmong(files[..n], sweeps, run, history), DoomedOf(f, run),
                 SparedAmong(files[..n], sweeps, run, history, compressAfter), SparedOf(f, run, history, compressAfter),
                 IgnoredAmong(files[..n], sweeps), f.name, sweeps(f.name), FindMtimeMatches(run - f.mtime, history));
    }
  }

  lemma {:induction false} OneMoreFile(files: seq<File>, sweeps: string -> bool, run: int, history: int,
      compressAfter: int)
    requires files != []
    ensures var n, f := |files| - 1, files[|files| - 1];
            var swept, matched := sweeps(f.name), FindMtimeMatches(run - f.mtime, history);
            && DoomedAmong(files, sweeps, run, history)
               == DoomedAmong(files[..n], sweeps, run, history) + (if swept && matched then [DoomedOf(f, run)] else [])
            && SparedAmong(files, sweeps, run, history, compressAfter)
               == SparedAmong(files[..n], sweeps, run, history, compressAfter)
                  + (if swept && !matched then [SparedOf(f, run, history, compressAfter)] else [])
            && IgnoredAmong(files, sweeps) == IgnoredAmong(files[..n], sweeps) + (if swept then [] else [f.name])
  {
  }

  /** One more row in one of three lists. */
  lemma {:induction false} OneMoreRow(doomed: seq<Doomed>, d: Doomed, spared: seq<Spared>, s: Spared,
      ignored: seq<string>, name: string, swept: bool, matched: bool)
    requires d.name == s.name == name
    ensures var doomed' := doomed + (if swept && matched then [d] else []);
            var spared' := spared + (if swept && !matched then [s] else []);
            var ignored' := ignored + (if swept then [] else [name]);
            && |doomed'| + |spared'| + |ignored'| == |doomed| + |spared| + |ignored| + 1
            && NamesDoomed(doomed') + NamesSpared(spared') + multiset(ignored')
               == NamesDoomed(doomed) + NamesSpared(spared) + multiset(ignored) + multiset{name}
  {
    var a, b, c := NamesDoomed(doomed), NamesSpared(spared), multiset(ignored);
    NamesAdd(doomed, d, spared, s);
    assert doomed + [] == doomed && spared + [] == spared && ignored + [] == ignored;
    if swept && matched {
      MoveLast(a, b, c, name);
    } else if swept {
      MoveMiddle(a, b, c, name);
    } else {
      IgnoredAdd(ignored, name);
      MoveEnd(a, b, c, name);
    }
  }

  lemma {:induction false} IgnoredAdd(ignored: seq<string>, name: string)
    ensures multiset(ignored + [name]) == multiset(ignored) + multiset{name}
  {
  }

  lemma {:induction false} MoveLast(a: multiset<string>, b: multiset<string>, c: multiset<string>, x: string)
    ensures (a + multiset{x}) + b + c == a + b + c + multiset{x}
  {
  }

  lemma {:induction false} MoveMiddle(a: multiset<string>, b: multiset<string>, c: multiset<string>, x: string)
    ensures a + (b + multiset{x}) + c == a + b + c + multiset{x}
  {
  }

  lemma {:induction false} MoveEnd(a: multiset<string>, b: multiset<string>, c: multiset<string>, x: string)
    ensures a + b + (c + multiset{x}) == a + b + c + multiset{x}
  {
  }

  /** What a capture deadline rests on: the sweep deletes nothing before `run`, what it deletes then is
      what is doomed, and nothing that is spared goes before `earliestLoss`. */
  lemma {:induction false} NothingIsLostEarlier(files: seq<File>, f: File, requested: int, history: int,
      compressAfter: int, sweeps: string -> bool, skipped: set<int>, period: int)
    requires period >= 1 && f in files && sweeps(f.name)
    ensures var run := NextFire(requested, requested, period * DAY, skipped);
            var gone := Deletion(f.mtime, history, requested, period * DAY, skipped);
            var earliestLoss := MinOf(Deletions(SparedAmong(files, sweeps, run, history, compressAfter)));
            && gone >= run
            && (gone == run <==> FindMtimeMatches(run - f.mtime, history))
            && (gone > run ==> earliestLoss.Some? && run < earliestLoss.value <= gone)
  {
    var run := NextFire(requested, requested, period * DAY, skipped);
    var gone := Deletion(f.mtime, history, requested, period * DAY, skipped);
    DoomedMeansDeletedAtRun(f.mtime, history, requested, period, skipped);
    if gone > run {
      var r := SparedOf(f, run, history, compressAfter);
      var spared := SparedAmong(files, sweeps, run, history, compressAfter);
      assert SparedFile(r, f, sweeps, run, history, compressAfter);
      SparedAre(files, sweeps, run, history, compressAfter, r);
      InDeletions(spared, r);
      ForecastIsEarliestLoss(f, requested, history, compressAfter, period, skipped);
      EveryDeletionIsLater(files, sweeps, requested, history, compressAfter, skipped, period,
                           MinOf(Deletions(spared)).value);
    }
  }

  lemma {:induction false} DeletionOfSome(spared: seq<Spared>, t: int) returns (r: Spared)
    requires t in Deletions(spared)
    ensures r in spared && r.deletedAt == t
  {
    var n := |spared| - 1;
    assert spared == spared[..n] + [spared[n]];
    if spared[n].deletedAt == t { return spared[n]; }
    r := DeletionOfSome(spared[..n], t);
  }

  lemma {:induction false} EveryDeletionIsLater(files: seq<File>, sweeps: string -> bool, requested: int,
      history: int, compressAfter: int, skipped: set<int>, period: int, t: int)
    requires period >= 1
    requires t in Deletions(SparedAmong(files, sweeps, NextFire(requested, requested, period * DAY, skipped),
                                        history, compressAfter))
    ensures t > NextFire(requested, requested, period * DAY, skipped)
  {
    var run := NextFire(requested, requested, period * DAY, skipped);
    var r := DeletionOfSome(SparedAmong(files, sweeps, run, history, compressAfter), t);
    SparedAre(files, sweeps, run, history, compressAfter, r);
    var f :| f in files && SparedFile(r, f, sweeps, run, history, compressAfter);
    ForecastIsEarliestLoss(f, requested, history, compressAfter, period, skipped);
  }

  // ------------------------------------------------------------------ outages

  /** A point of the lattice through `anchor`, before or after it. */
  ghost predicate OnLattice(t: int, anchor: int, step: int) {
    exists k :: t == FireAt(anchor, step, k)
  }

  method ScheduledFires(anchor: int, lo: int, hi: int, period: int) returns (out: seq<int>)
    requires period >= 1
    ensures Ascending(out, IntLess)
    ensures forall t :: t in out <==> lo <= t <= hi && OnLattice(t, anchor, period * DAY)
  {
    var step := period * DAY;
    var k0 := CeilDiv(lo - anchor, step);
    var t := anchor + k0 * step;
    out := [];
    ghost var k := k0;
    while t <= hi
      invariant k >= k0 && t == FireAt(anchor, step, k) && |out| == k - k0
      invariant forall i | 0 <= i < |out| :: out[i] == FireAt(anchor, step, k0 + i)
      invariant forall i | 0 <= i < |out| :: out[i] <= hi
      decreases hi - t
    {
      out := out + [t];
      assert FireAt(anchor, step, k + 1) == t + step;
      t := t + step;
      k := k + 1;
    }
    FiresListed(anchor, step, lo, hi, k0, k, out);
  }

  lemma {:induction false} FiresListed(anchor: int, step: int, lo: int, hi: int, k0: int, k: int, out: seq<int>)
    requires step > 0 && k0 <= k && |out| == k - k0
    requires lo <= FireAt(anchor, step, k0) < lo + step && hi < FireAt(anchor, step, k)
    requires forall i | 0 <= i < |out| :: out[i] == FireAt(anchor, step, k0 + i) <= hi
    ensures Ascending(out, IntLess)
    ensures forall t :: t in out <==> lo <= t <= hi && OnLattice(t, anchor, step)
  {
    forall i, j | 0 <= i < j < |out| ensures IntLess(out[i], out[j]) {
      FiresApart(anchor, step, k0 + i, k0 + j);
    }
    forall t | lo <= t <= hi && OnLattice(t, anchor, step) ensures t in out {
      var m :| t == FireAt(anchor, step, m);
      if m < k0 { FiresApart(anchor, step, m, k0); }
      if m > k { FiresApart(anchor, step, k, m); }
      assert out[m - k0] == t;
    }
    forall t | t in out ensures lo <= t <= hi && OnLattice(t, anchor, step) {
      var i :| 0 <= i < |out| && out[i] == t;
      if i > 0 { FiresApart(anchor, step, k0, k0 + i); }
    }
  }

  /** What was kept of the fires so far comes before the next one. */
  lemma {:induction false} LaterFire(fires: seq<int>, i: nat, kept: seq<int>)
    requires Ascending(fires, IntLess) && i < |fires|
    requires Ascending(kept, IntLess) && forall t | t in kept :: t in fires[..i]
    ensures Ascending(kept + [fires[i]], IntLess)
  {
    forall t | t in kept ensures t < fires[i] {
      var k :| 0 <= k < i && fires[..i][k] == t;
      InOrder(fires, IntLess, k, i);
    }
    var next := kept + [fires[i]];
    forall a, b | 0 <= a < b < |next| ensures IntLess(next[a], next[b]) {
      if b < |kept| {
        InOrder(kept, IntLess, a, b);
      } else {
        assert kept[a] in kept;
      }
    }
  }

  /** The fires inside an outage: after the box was last seen, up to and including its return. */
  method FiresLostToOutage(anchor: int, downFrom: int, downTo: int, period: int) returns (out: seq<int>)
    requires period >= 1
    ensures Ascending(out, IntLess)
    ensures forall t :: t in out <==> downFrom < t <= downTo && OnLattice(t, anchor, period * DAY)
  {
    var fires := ScheduledFires(anchor, downFrom, downTo, period);
    out := [];
    for i := 0 to |fires|
      invariant Ascending(out, IntLess)
      invariant forall t :: t in out <==> t in fires[..i] && downFrom < t <= downTo
    {
      TakeStep(fires, i);
      LaterFire(fires, i, out);
      if downFrom < fires[i] <= downTo {
        out := out + [fires[i]];
      }
    }
    TakeAll(fires);
  }

  ghost predicate IsOutage(skipped: set<int>, anchor: int, downFrom: int, downTo: int, step: int) {
    forall t :: t in skipped <==> downFrom < t <= downTo && OnLattice(t, anchor, step)
  }

  /** Skipping the fires an outage loses, a sweep asked for inside it runs at the first fire after the
      box is back. */
  lemma {:induction false} OutageMovesTheRun(requested: int, anchor: int, downFrom: int, downTo: int, period: int,
      skipped: set<int>)
    requires period >= 1 && IsOutage(skipped, anchor, downFrom, downTo, period * DAY)
    requires OnLattice(requested, anchor, period * DAY) && downFrom < requested <= downTo
    ensures var run := NextFire(requested, requested, period * DAY, skipped);
            && OnLattice(run, anchor, period * DAY) && downTo < run <= downTo + period * DAY
            && forall t | OnLattice(t, anchor, period * DAY) && t > downTo :: run <= t
  {
    var step := period * DAY;
    var run := NextFire(requested, requested, step, skipped);
    var a :| requested == FireAt(anchor, step, a);
    var k :| k >= 0 && run == FireAt(requested, step, k);
    assert run == FireAt(anchor, step, a + k) by { assert (a + k) * step == a * step + k * step; }
    assert k * step >= 0;
    assert run > downTo;
    forall t | OnLattice(t, anchor, step) && t > downTo ensures run <= t {
      var m :| t == FireAt(anchor, step, m);
      if m < a { FiresApart(anchor, step, m, a); }
      assert t == FireAt(requested, step, m - a) by { assert (m - a) * step == m * step - a * step; }
      NextFireIsFirst(requested, requested, step, skipped, t);
    }
    assert FireAt(anchor, step, a + k - 1) == run - step by { assert (a + k - 1) * step == (a + k) * step - step; }
    assert OnLattice(run - step, anchor, step);
  }
}
