/** harness/viapin.py: checking the registry's `via` pins against the graph, and repairing them. */
module ViaPin {
  import opened Order
  import opened Seqs
  import opened Text
  import opened Dict
  import opened WiringGraph
  import opened WiringRegistry

  datatype Verdict = NoPin | RootPin | Absent | Lost | Held | Drifted | Unpinned

  datatype Row = Row(key: string, via: Option<string>, verdict: Verdict, suggest: Option<string>)

  function PathOf(via: string): string {
    RPartition(via, ':').0
  }

  /** The edge a pinned file really has into the entry point. */
  function EdgeFrom(w: Wiring, path: string, key: string): Option<Edge> {
    if key in w.Succ(path) then Some(w.Succ(path)[key]) else None
  }

  function VerdictOf(w: Wiring, key: string, via: Option<string>): Verdict {
    if via.None? || via.value == "" then NoPin
    else if via.value == "root" then RootPin
    else
      var (path, line) := RPartition(via.value, ':');
      if path !in w.nodes then Absent
      else
        match EdgeFrom(w, path, key)
        case None => Lost
        case Some(e) =>
          if IsDigits(line) then (if e.line == ParseInt(line) then Held else Drifted)
          else Unpinned
  }

  /** The same file, at the line its edge is on. */
  function Repinned(w: Wiring, key: string, via: string): string
    requires EdgeFrom(w, PathOf(via), key).Some?
  {
    Pin(PathOf(via), Decimal(EdgeFrom(w, PathOf(via), key).value.line))
  }

  function OtherFile(best: Option<Incoming>): Option<string> {
    match best
    case None => None
    case Some(b) => Some(Pin(b.src, Decimal(b.line)) + " [" + KindName(b.kind)
                         + "] (DIFFERENT FILE \U{2014} adjudicate)")
  }

  function Classify(w: Wiring, key: string, via: Option<string>, best: Option<Incoming>): Row {
    var v := VerdictOf(w, key, via);
    Row(key, via, v,
        if v == Drifted || v == Unpinned then Some(Repinned(w, key, via.value))
        else if v == Lost then OtherFile(best)
        else None)
  }

  /** Reads the graph's edges for one pin, and its best evidence when the pin is lost. */
  method ClassifyEntry(g: Graph, key: string, e: Entry) returns (row: Row)
    requires g.Valid() && g.reached.Some?
    modifies g`edges
    ensures g.Valid()
    ensures row == Classify(g.w, key, e.via, Best(g.w, g.reached.value, g.depth, key))
  {
    row := Row(key, e.via, NoPin, None);
    if e.via.None? || e.via.value == "" {
      return;
    }
    if e.via.value == "root" {
      return row.(verdict := RootPin);
    }
    var (path, line) := RPartition(e.via.value, ':');
    if path !in g.w.nodes {
      return row.(verdict := Absent);
    }
    var out := g.Expand(path);
    if key !in out {
      var best := g.BestKnown(key);
      return row.(verdict := Lost, suggest := OtherFile(best));
    }
    if IsDigits(line) && out[key].line == ParseInt(line) {
      row := row.(verdict := Held);
    } else {
      row := row.(verdict := if IsDigits(line) then Drifted else Unpinned,
                  suggest := Some(Pin(path, Decimal(out[key].line))));
    }
  }

  // ------------------------------------------------------------------ what a repinned pin is

  lemma {:induction false} PinParts(path: string, line: string)
    requires ':' !in line
    ensures RPartition(Pin(path, line), ':') == (path, line) && Pin(path, line) != "" && Pin(path, line) != "root"
  {
    RPartitionAt(path, line, ':');
    assert path + ":" + line == path + [':'] + line;
    assert Pin(path, line)[|path|] == ':';
  }

  /** Writing a pin and reading it back: it is held when it names a line, and unpinned when it does not. */
  lemma {:induction false} PinReadsBack(w: Wiring, key: string, path: string, line: nat)
    requires path in w.nodes && EdgeFrom(w, path, key).Some? && EdgeFrom(w, path, key).value.line == line
    ensures VerdictOf(w, key, Some(Pin(path, Decimal(line)))) == Held
    ensures VerdictOf(w, key, Some(Pin(path, EdgeLine(line)))) == if line == 0 then Unpinned else Held
  {
    DecimalParses(line);
    PinParts(path, Decimal(line));
    PinParts(path, "-");
  }

  /** A repaired pin is held, and names the file it named before. */
  lemma {:induction false} RepinnedIsHeld(w: Wiring, key: string, via: string)
    requires VerdictOf(w, key, Some(via)) == Drifted || VerdictOf(w, key, Some(via)) == Unpinned
    ensures VerdictOf(w, key, Some(Repinned(w, key, via))) == Held
    ensures PathOf(Repinned(w, key, via)) == PathOf(via)
  {
    var line := EdgeFrom(w, PathOf(via), key).value.line;
    PinReadsBack(w, key, PathOf(via), line);
    DecimalParses(line);
    PinParts(PathOf(via), Decimal(line));
  }

  /** A proposed entry's pin classifies as the root's, or as held; the one exception is evidence that
      carries no line, which proposes an unpinned pin. */
  lemma {:induction false} ProposedPinHolds(co: Checkout, reg: Option<Registry>, w: Wiring, seen: set<string>,
      depth: map<string, nat>, key: string, reason: string)
    requires seen <= depth.Keys && seen <= w.nodes
    requires Propose(co, reg, w, seen, depth, key, reason).Proposed?
    ensures var v := VerdictOf(w, key, Propose(co, reg, w, seen, depth, key, reason).entry.via);
            match Best(w, seen, depth, key)
            case None => v == RootPin
            case Some(b) => v == if b.line == 0 then Unpinned else Held
  {
    assert forall s | s in Sorted(seen) :: s in depth;
    BestOverIsBest(w, depth, key, Sorted(seen));
    match Best(w, seen, depth, key)
    case None =>
    case Some(b) =>
      assert b.src in w.nodes;
      PinReadsBack(w, key, b.src, b.line);
  }

  // ------------------------------------------------------------------ what each verdict means

  /** A pin that names a line: held when the named file's edge into the entry point is on that line, drifted
      when it is on another, lost when there is none, absent when the file is no node. */
  lemma {:induction false} LinePinMeans(w: Wiring, key: string, path: string, line: string)
    requires IsDigits(line)
    ensures var v, edge := VerdictOf(w, key, Some(path + ":" + line)), EdgeFrom(w, path, key);
            && (v == Held <==> path in w.nodes && edge.Some? && edge.value.line == ParseInt(line))
            && (v == Drifted <==> path in w.nodes && edge.Some? && edge.value.line != ParseInt(line))
            && (v == Lost <==> path in w.nodes && edge.None?)
            && (v == Absent <==> path !in w.nodes)
  {
    PinParts(path, line);
  }

  /** In numbers: a pin to line `n` is held exactly when the edge is on line `n`. */
  lemma {:induction false} NumberPinMeans(w: Wiring, key: string, path: string, n: nat)
    requires path in w.nodes && EdgeFrom(w, path, key).Some?
    ensures VerdictOf(w, key, Some(path + ":" + Decimal(n)))
         == if EdgeFrom(w, path, key).value.line == n then Held else Drifted
  {
    DecimalParses(n);
    LinePinMeans(w, key, path, Decimal(n));
  }

  /** No pin, and the root's. */
  lemma {:induction false} NoPinMeans(w: Wiring, key: string, via: Option<string>)
    ensures VerdictOf(w, key, via) == NoPin <==> via.None? || via.value == ""
    ensures VerdictOf(w, key, via) == RootPin <==> via == Some("root")
  {
  }

  /** A pin that names no line claims only the file. */
  lemma {:induction false} OpenPinMeans(w: Wiring, key: string, path: string, line: string)
    requires ':' !in line && !IsDigits(line)
    ensures var v, edge := VerdictOf(w, key, Some(path + ":" + line)), EdgeFrom(w, path, key);
            && (v == Unpinned <==> path in w.nodes && edge.Some?)
            && (v == Lost <==> path in w.nodes && edge.None?)
            && (v == Absent <==> path !in w.nodes)
  {
    PinParts(path, line);
  }

  /** What the row suggests: the named file's own line when that can be repaired, the best evidence, marked as
      another file's, when the pin is lost, and otherwise nothing. */
  lemma {:induction false} SuggestionMeans(w: Wiring, key: string, path: string, line: string, best: Option<Incoming>)
    requires ':' !in line
    ensures var row, edge := Classify(w, key, Some(path + ":" + line), best), EdgeFrom(w, path, key);
            && row.key == key && row.via == Some(path + ":" + line)
            && (row.verdict == Drifted || row.verdict == Unpinned ==>
                  edge.Some? && row.suggest == Some(path + ":" + Decimal(edge.value.line)))
            && (row.verdict == Held || row.verdict == Absent ==> row.suggest == None)
            && (row.verdict == Lost ==>
                  && (row.suggest.Some? <==> best.Some?)
                  && (best.Some? ==> best.value.src + ":" + Decimal(best.value.line) + " [" <= row.suggest.value))
  {
    PinParts(path, line);
    if best.Some? {
      var b := best.value;
      assert Pin(b.src, Decimal(b.line)) == b.src + ":" + Decimal(b.line);
    }
  }

  // ------------------------------------------------------------------ audit and fix

  ghost predicate NoNulls(d: Dict<Option<Entry>>) {
    forall k | k in Keys(d) :: Get(d, k).value.Some?
  }

  predicate Wanted(v: Verdict, fill: bool) {
    v == Drifted || (fill && v == Unpinned)
  }

  /** The pin after a repair. */
  function FixedVia(w: Wiring, key: string, via: Option<string>, fill: bool): Option<string> {
    if Wanted(VerdictOf(w, key, via), fill) then Some(Repinned(w, key, via.value)) else via
  }

  /** Repair settles: what was drifted (or, with `fill`, unpinned) is held, every other verdict stands,
      the pinned file is the same, and repairing again changes nothing. */
  lemma {:induction false} FixedViaSettles(w: Wiring, key: string, via: Option<string>, fill: bool)
    ensures var fixed := FixedVia(w, key, via, fill);
            && VerdictOf(w, key, fixed)
               == (if Wanted(VerdictOf(w, key, via), fill) then Held else VerdictOf(w, key, via))
            && (via.None? <==> fixed.None?) && (via.Some? ==> PathOf(fixed.value) == PathOf(via.value))
            && FixedVia(w, key, fixed, fill) == fixed
  {
    if Wanted(VerdictOf(w, key, via), fill) {
      RepinnedIsHeld(w, key, via.value);
    }
  }

  function FixedEntry(w: Wiring, key: string, entry: Option<Entry>, fill: bool): Option<Entry> {
    match entry
    case None => None
    case Some(e) => Some(e.(via := FixedVia(w, key, e.via, fill)))
  }

  /** The registry with the pins of some keys repaired: same keys, same order. */
  function Fixed(w: Wiring, d: Dict<Option<Entry>>, ks: set<string>, fill: bool): Dict<Option<Entry>> {
    if d == [] then []
    else
      var n := |d| - 1;
      Fixed(w, d[..n], ks, fill) + [(d[n].0, if d[n].0 in ks then FixedEntry(w, d[n].0, d[n].1, fill) else d[n].1)]
  }

  /** `d[k] = v` for a key the dict has: the key keeps its place. */
  function Put<V>(d: Dict<V>, k: string, v: V): Dict<V> {
    if d == [] then []
    else
      var n := |d| - 1;
      if d[n].0 == k then d[..n] + [(k, v)] else Put(d[..n], k, v) + [d[n]]
  }

  lemma {:induction false} FixedLookup(w: Wiring, d: Dict<Option<Entry>>, ks: set<string>, fill: bool, k: string)
    ensures Keys(Fixed(w, d, ks, fill)) == Keys(d) && |Fixed(w, d, ks, fill)| == |d|
    ensures Get(Fixed(w, d, ks, fill), k)
         == if k in Keys(d) && k in ks then Some(FixedEntry(w, k, Get(d, k).value, fill)) else Get(d, k)
  {
    if d != [] {
      var n := |d| - 1;
      FixedLookup(w, d[..n], ks, fill, k);
      assert Fixed(w, d, ks, fill)[..n] == Fixed(w, d[..n], ks, fill);
    }
  }

  lemma {:induction false} FixedSame(w: Wiring, d: Dict<Option<Entry>>, ks: set<string>, more: set<string>, fill: bool)
    requires forall k | k in Keys(d) :: k in ks <==> k in more
    ensures Fixed(w, d, ks, fill) == Fixed(w, d, more, fill)
  {
    if d != [] { FixedSame(w, d[..|d| - 1], ks, more, fill); }
  }

  /** Repairing one more key is one assignment. */
  lemma {:induction false} FixedStep(w: Wiring, d: Dict<Option<Entry>>, ks: set<string>, k: string, fill: bool)
    requires IsDict(d) && k in Keys(d) && k !in ks
    ensures Fixed(w, d, ks + {k}, fill) == Put(Fixed(w, d, ks, fill), k, FixedEntry(w, k, Get(d, k).value, fill))
  {
    var n := |d| - 1;
    var f := Fixed(w, d, ks, fill);
    FixedLookup(w, d[..n], ks, fill, k);
    assert f[..n] == Fixed(w, d[..n], ks, fill);
    if d[n].0 == k {
      FixedSame(w, d[..n], ks, ks + {k}, fill);
    } else {
      FixedStep(w, d[..n], ks, k, fill);
    }
  }

  /** Assigning a pin that needs no repair to itself changes nothing. */
  lemma {:induction false} FixedSkip(w: Wiring, d: Dict<Option<Entry>>, ks: set<string>, k: string, fill: bool)
    requires IsDict(d) && k in Keys(d) && FixedEntry(w, k, Get(d, k).value, fill) == Get(d, k).value
    ensures Fixed(w, d, ks + {k}, fill) == Fixed(w, d, ks, fill)
  {
    var n := |d| - 1;
    if d[n].0 == k {
      FixedSame(w, d[..n], ks + {k}, ks, fill);
    } else {
      FixedSkip(w, d[..n], ks, k, fill);
    }
  }

  datatype Change = Change(key: string, was: string, now: string, verdict: Verdict)

  /** The row of one key of the registry. */
  function RowOf(w: Wiring, seen: set<string>, depth: map<string, nat>, d: Dict<Option<Entry>>, k: string): Row
    requires seen <= depth.Keys
  {
    var found: Option<Option<Entry>> := Get(d, k);
    if found.Some? && found.value.Some? then Classify(w, k, found.value.value.via, Best(w, seen, depth, k))
    else Row(k, None, NoPin, None)
  }

  function RowsOf(w: Wiring, seen: set<string>, depth: map<string, nat>, d: Dict<Option<Entry>>,
      ks: seq<string>): (rows: seq<Row>)
    requires seen <= depth.Keys
    ensures |rows| == |ks|
  {
    if ks == [] then []
    else RowsOf(w, seen, depth, d, ks[..|ks| - 1]) + [RowOf(w, seen, depth, d, ks[|ks| - 1])]
  }

  ghost predicate HasEntry(d: Dict<Option<Entry>>, k: string) {
    k in Keys(d) && Get(d, k).value.Some?
  }

  method AuditPin(g: Graph, d: Dict<Option<Entry>>, k: string) returns (row: Row)
    requires g.Valid() && g.reached.Some? && HasEntry(d, k)
    modifies g`edges
    ensures g.Valid() && row == RowOf(g.w, g.reached.value, g.depth, d, k)
  {
    row := ClassifyEntry(g, k, Get(d, k).value.value);
  }

  /** Every pin in the registry, classified in key order. */
  method AuditPins(g: Graph, d: Dict<Option<Entry>>) returns (rows: seq<Row>)
    requires g.Valid() && g.reached.Some? && NoNulls(d)
    modifies g`edges
    ensures g.Valid() && rows == RowsOf(g.w, g.reached.value, g.depth, d, Sorted(Keys(d)))
  {
    var ks := Sorted(Keys(d));
    assert forall k | k in ks :: HasEntry(d, k);
    rows := AuditKeys(g, d, ks);
  }

  /** The loop of the audit. */
  method AuditKeys(g: Graph, d: Dict<Option<Entry>>, ks: seq<string>) returns (rows: seq<Row>)
    requires g.Valid() && g.reached.Some? && forall k | k in ks :: HasEntry(d, k)
    modifies g`edges
    ensures g.Valid() && rows == RowsOf(g.w, g.reached.value, g.depth, d, ks)
  {
    rows := [];
    for i := 0 to |ks|
      invariant g.Valid() && rows == RowsOf(g.w, g.reached.value, g.depth, d, ks[..i])
    {
      RowsStep(g.w, g.reached.value, g.depth, d, ks, i);
      assert ks[i] in ks;
      var row := AuditPin(g, d, ks[i]);
      rows := rows + [row];
    }
    TakeAll(ks);
  }

  lemma {:induction false} RowsStep(w: Wiring, seen: set<string>, depth: map<string, nat>, d: Dict<Option<Entry>>,
      ks: seq<string>, i: nat)
    requires seen <= depth.Keys && i < |ks|
    ensures RowsOf(w, seen, depth, d, ks[..i + 1])
            == RowsOf(w, seen, depth, d, ks[..i]) + [RowOf(w, seen, depth, d, ks[i])]
  {
    TakeStep(ks, i);
  }

  lemma {:induction false} RowAt(w: Wiring, seen: set<string>, depth: map<string, nat>, d: Dict<Option<Entry>>,
      ks: seq<string>, i: nat)
    requires seen <= depth.Keys && i < |ks|
    ensures RowsOf(w, seen, depth, d, ks)[i] == RowOf(w, seen, depth, d, ks[i])
  {
    if i < |ks| - 1 { RowAt(w, seen, depth, d, ks[..|ks| - 1], i); }
  }

  function ChangeOf(r: Row, fill: bool): seq<Change> {
    if Wanted(r.verdict, fill) && r.suggest.Some? && r.via.Some?
    then [Change(r.key, r.via.value, r.suggest.value, r.verdict)] else []
  }

  function ChangesOf(rows: seq<Row>, fill: bool): seq<Change> {
    FlatMap(rows, r => ChangeOf(r, fill))
  }

  /** The entries after one change: the pin assigned, in place. */
  function Applied(entries: Dict<Option<Entry>>, c: Change): Dict<Option<Entry>> {
    var found: Option<Option<Entry>> := Get(entries, c.key);
    if found.Some? && found.value.Some? then Put(entries, c.key, Some(found.value.value.(via := Some(c.now))))
    else entries
  }

  lemma {:induction false} AppliedIsFixed(w: Wiring, d: Dict<Option<Entry>>, done: set<string>, r: Row,
      best: Option<Incoming>, fill: bool)
    requires IsDict(d) && NoNulls(d) && r.key in Keys(d) && r.key !in done
    requires r == Classify(w, r.key, Get(d, r.key).value.value.via, best)
    ensures var entries := Fixed(w, d, done, fill);
            Fixed(w, d, done + {r.key}, fill)
            == if ChangeOf(r, fill) == [] then entries else Applied(entries, ChangeOf(r, fill)[0])
  {
    FixedLookup(w, d, done, fill, r.key);
    if Wanted(r.verdict, fill) {
      FixedStep(w, d, done, r.key, fill);
    } else {
      FixedSkip(w, d, done, r.key, fill);
    }
  }

  /** What row `i` does to the entries repaired so far. */
  lemma {:induction false} ApplyStep(w: Wiring, seen: set<string>, depth: map<string, nat>, d: Dict<Option<Entry>>,
      ks: seq<string>, i: nat, row: Row, fill: bool)
    requires IsDict(d) && NoNulls(d) && seen <= depth.Keys && ks == Sorted(Keys(d)) && i < |ks|
    requires row == RowOf(w, seen, depth, d, ks[i])
    ensures var before, change := Fixed(w, d, Elems(ks[..i]), fill), ChangeOf(row, fill);
            Fixed(w, d, Elems(ks[..i + 1]), fill) == if change != [] then Applied(before, change[0]) else before
  {
    ElemsStep(ks, i);
    assert ks[i] in ks;
    NotBefore(ks, i);
    AppliedIsFixed(w, d, Elems(ks[..i]), row, Best(w, seen, depth, ks[i]), fill);
  }

  /** Row `i` is the next repair: what `ApplyStep` says of it. */
  ghost predicate Repairs(w: Wiring, d: Dict<Option<Entry>>, ks: seq<string>, rows: seq<Row>, fill: bool, i: nat)
    requires i < |rows| == |ks|
  {
    var before, change := Fixed(w, d, Elems(ks[..i]), fill), ChangeOf(rows[i], fill);
    Fixed(w, d, Elems(ks[..i + 1]), fill) == if change != [] then Applied(before, change[0]) else before
  }

  /** Applies the wanted suggestions to the entries, in place. */
  method ApplyRows(w: Wiring, ghost seen: set<string>, ghost depth: map<string, nat>, d: Dict<Option<Entry>>,
      rows: seq<Row>, fill: bool)
    returns (entries: Dict<Option<Entry>>, changes: seq<Change>)
    requires IsDict(d) && NoNulls(d) && seen <= depth.Keys
    requires rows == RowsOf(w, seen, depth, d, Sorted(Keys(d)))
    ensures entries == Fixed(w, d, Keys(d), fill) && changes == ChangesOf(rows, fill)
  {
    ghost var ks := Sorted(Keys(d));
    forall i: nat | i < |rows| ensures Repairs(w, d, ks, rows, fill, i) {
      RowAt(w, seen, depth, d, ks, i);
      ApplyStep(w, seen, depth, d, ks, i, rows[i], fill);
    }
    entries, changes := RepairAll(w, d, ks, rows, fill);
    assert Elems(ks) == Keys(d);
  }

  /** The loop of the repair. */
  method RepairAll(ghost w: Wiring, d: Dict<Option<Entry>>, ghost ks: seq<string>, rows: seq<Row>, fill: bool)
    returns (entries: Dict<Option<Entry>>, changes: seq<Change>)
    requires |rows| == |ks| && forall i: nat | i < |rows| :: Repairs(w, d, ks, rows, fill, i)
    ensures entries == Fixed(w, d, Elems(ks), fill) && changes == ChangesOf(rows, fill)
  {
    entries, changes := d, [];
    FixedNone(w, d, fill);
    for i := 0 to |rows|
      invariant entries == Fixed(w, d, Elems(ks[..i]), fill) && changes == ChangesOf(rows[..i], fill)
    {
      TakeStep(rows, i);
      assert Repairs(w, d, ks, rows, fill, i);
      var change := ChangeOf(rows[i], fill);
      changes := changes + change;
      if change != [] {
        entries := Applied(entries, change[0]);
      }
    }
    TakeAll(rows);
    TakeAll(ks);
  }

  lemma {:induction false} FixedNone(w: Wiring, d: Dict<Option<Entry>>, fill: bool)
    ensures Fixed(w, d, {}, fill) == d && Elems<string>([]) == {}
  {
    if d != [] { FixedNone(w, d[..|d| - 1], fill); }
  }

  lemma {:induction false} NotBefore(ks: seq<string>, i: nat)
    requires Ascending(ks, Less) && i < |ks|
    ensures ks[i] !in Elems(ks[..i])
  {
    forall j | 0 <= j < i ensures ks[j] != ks[i] {
      InOrder(ks, Less, j, i);
      LessTrichotomy(ks[i], ks[i]);
    }
  }

  /** Repairs drifted pins and, with `fill`, unpinned ones; persists them only with `write`. */
  method Fix(file: RegistryFile, g: Graph, write: bool, fill: bool) returns (changes: seq<Change>)
    requires g.Valid() && g.reached.Some? && file.contents.Some?
    requires IsDict(file.contents.value.entries) && NoNulls(file.contents.value.entries)
    modifies file, g`edges
    ensures g.Valid()
    ensures var d := old(file.contents.value.entries);
            && changes == ChangesOf(RowsOf(g.w, g.reached.value, g.depth, d, Sorted(Keys(d))), fill)
            && file.contents
               == Some(old(file.contents.value).(entries := if write then Fixed(g.w, d, Keys(d), fill) else d))
  {
    var reg := file.contents.value;
    var rows := AuditPins(g, reg.entries);
    var entries;
    entries, changes := ApplyRows(g.w, g.reached.value, g.depth, reg.entries, rows, fill);
    if write && changes != [] {
      file.contents := Some(reg.(entries := entries));
    } else if changes == [] {
      NoChangeNoFix(g.w, g.reached.value, g.depth, reg.entries, Sorted(Keys(reg.entries)), fill);
    }
  }

  /** No change listed means no pin to repair. */
  lemma {:induction false} NoChangeNoFix(w: Wiring, seen: set<string>, depth: map<string, nat>,
      d: Dict<Option<Entry>>, ks: seq<string>, fill: bool)
    requires IsDict(d) && NoNulls(d) && seen <= depth.Keys && ks == Sorted(Keys(d))
    requires ChangesOf(RowsOf(w, seen, depth, d, ks), fill) == []
    ensures Fixed(w, d, Keys(d), fill) == d
  {
    forall k | k in Keys(d) ensures FixedEntry(w, k, Get(d, k).value, fill) == Get(d, k).value {
      assert k in ks;
      EntryStands(w, seen, depth, d, ks, fill, k);
    }
    FixedAllSkip(w, d, Keys(d), fill);
  }

  lemma {:induction false} EntryStands(w: Wiring, seen: set<string>, depth: map<string, nat>, d: Dict<Option<Entry>>,
      ks: seq<string>, fill: bool, k: string)
    requires IsDict(d) && NoNulls(d) && seen <= depth.Keys && (forall x | x in ks :: x in Keys(d)) && k in ks
    requires ChangesOf(RowsOf(w, seen, depth, d, ks), fill) == []
    ensures FixedEntry(w, k, Get(d, k).value, fill) == Get(d, k).value
  {
    var i :| 0 <= i < |ks| && ks[i] == k;
    RowAt(w, seen, depth, d, ks, i);
    FlatMapEmpty(RowsOf(w, seen, depth, d, ks), r => ChangeOf(r, fill), i);
    NoChangeStands(w, seen, depth, d, fill, k);
  }

  lemma {:induction false} NoChangeStands(w: Wiring, seen: set<string>, depth: map<string, nat>,
      d: Dict<Option<Entry>>, fill: bool, k: string)
    requires NoNulls(d) && seen <= depth.Keys && k in Keys(d)
    requires ChangeOf(RowOf(w, seen, depth, d, k), fill) == []
    ensures FixedEntry(w, k, Get(d, k).value, fill) == Get(d, k).value
  {
  }

  lemma {:induction false} FixedAllSkip(w: Wiring, d: Dict<Option<Entry>>, ks: set<string>, fill: bool)
    requires IsDict(d) && forall k | k in Keys(d) :: FixedEntry(w, k, Get(d, k).value, fill) == Get(d, k).value
    ensures Fixed(w, d, ks, fill) == d
  {
    if d != [] {
      var n := |d| - 1;
      forall k | k in Keys(d[..n]) ensures FixedEntry(w, k, Get(d[..n], k).value, fill) == Get(d[..n], k).value {
        assert Get(d, k) == Get(d[..n], k);
      }
      FixedAllSkip(w, d[..n], ks, fill);
      assert Get(d, d[n].0) == Some(d[n].1);
    }
  }

  /** After `fix --write` every pin it set out to repair is held, the others stand, each entry keeps
      everything but its pin, no pin changes file, and a second run changes nothing. */
  lemma {:induction false} FixConverges(w: Wiring, d: Dict<Option<Entry>>, fill: bool, k: string)
    requires IsDict(d) && NoNulls(d) && k in Keys(d)
    ensures var e := Get(d, k).value.value;
            var via := FixedVia(w, k, e.via, fill);
            && Get(Fixed(w, d, Keys(d), fill), k) == Some(Some(e.(via := via)))
            && VerdictOf(w, k, via) == (if Wanted(VerdictOf(w, k, e.via), fill) then Held else VerdictOf(w, k, e.via))
            && (e.via.Some? ==> via.Some? && PathOf(via.value) == PathOf(e.via.value))
    ensures Fixed(w, Fixed(w, d, Keys(d), fill), Keys(d), fill) == Fixed(w, d, Keys(d), fill)
  {
    FixedLookup(w, d, Keys(d), fill, k);
    FixedViaSettles(w, k, Get(d, k).value.value.via, fill);
    FixedTwice(w, d, Keys(d), fill);
  }

  /** In the registry that `fix --write` leaves, every pin that named a line of a file that has an edge names
      the edge's line; with `fill`, so does every pin that named none. */
  lemma {:induction false} FixedPinsAreRight(w: Wiring, d: Dict<Option<Entry>>, fill: bool, k: string, path: string,
      line: string)
    requires IsDict(d) && NoNulls(d) && k in Keys(d) && Get(d, k).value.value.via == Some(path + ":" + line)
    requires ':' !in line && path in w.nodes && EdgeFrom(w, path, k).Some? && (IsDigits(line) || fill)
    ensures var after := Get(Fixed(w, d, Keys(d), fill), k);
            && after.Some? && after.value.Some? && after.value.value.via.Some?
            && RPartition(after.value.value.via.value, ':').0 == path
            && var named := RPartition(after.value.value.via.value, ':').1;
               IsDigits(named) && ParseInt(named) == EdgeFrom(w, path, k).value.line
  {
    var edge := EdgeFrom(w, path, k).value;
    FixedLookup(w, d, Keys(d), fill, k);
    PinParts(path, line);
    DecimalParses(edge.line);
    PinParts(path, Decimal(edge.line));
    if IsDigits(line) { LinePinMeans(w, k, path, line); } else { OpenPinMeans(w, k, path, line); }
  }

  /** A change is listed for exactly the keys whose pin the repair alters, with the pin it had and gets. */
  lemma {:induction false} ChangesAreAlterations(w: Wiring, seen: set<string>, depth: map<string, nat>,
      d: Dict<Option<Entry>>, fill: bool, c: Change)
    requires IsDict(d) && NoNulls(d) && seen <= depth.Keys
    ensures c in ChangesOf(RowsOf(w, seen, depth, d, Sorted(Keys(d))), fill)
       <==> && c.key in Keys(d) && Get(d, c.key).value.value.via == Some(c.was)
            && c.verdict == VerdictOf(w, c.key, Some(c.was))
            && c.was != c.now && FixedVia(w, c.key, Some(c.was), fill) == Some(c.now)
  {
    var ks := Sorted(Keys(d));
    var rows := RowsOf(w, seen, depth, d, ks);
    InFlatMap(rows, r => ChangeOf(r, fill), c);
    if c in ChangesOf(rows, fill) {
      var r :| r in rows && c in ChangeOf(r, fill);
      InRows(w, seen, depth, d, ks, r);
      var k :| k in ks && r == RowOf(w, seen, depth, d, k);
      ChangeIs(w, seen, depth, d, k, fill, c);
    } else if c.key in Keys(d) {
      ChangeIs(w, seen, depth, d, c.key, fill, c);
      InRows(w, seen, depth, d, ks, RowOf(w, seen, depth, d, c.key));
    }
  }

  lemma {:induction false} InRows(w: Wiring, seen: set<string>, depth: map<string, nat>, d: Dict<Option<Entry>>,
      ks: seq<string>, r: Row)
    requires seen <= depth.Keys
    ensures r in RowsOf(w, seen, depth, d, ks) <==> exists k :: k in ks && r == RowOf(w, seen, depth, d, k)
  {
    if ks != [] {
      var n := |ks| - 1;
      InRows(w, seen, depth, d, ks[..n], r);
      assert ks == ks[..n] + [ks[n]];
    }
  }

  lemma {:induction false} ChangeIs(w: Wiring, seen: set<string>, depth: map<string, nat>, d: Dict<Option<Entry>>,
      k: string, fill: bool, c: Change)
    requires NoNulls(d) && seen <= depth.Keys && k in Keys(d)
    ensures c in ChangeOf(RowOf(w, seen, depth, d, k), fill)
       <==> && c.key == k && Get(d, k).value.value.via == Some(c.was) && c.verdict == VerdictOf(w, k, Some(c.was))
            && c.was != c.now && FixedVia(w, k, Some(c.was), fill) == Some(c.now)
  {
    var via := Get(d, k).value.value.via;
    if via.Some? && Wanted(VerdictOf(w, k, via), fill) { RepairAlters(w, k, via.value, fill); }
  }

  lemma {:induction false} RepairAlters(w: Wiring, key: string, via: string, fill: bool)
    requires Wanted(VerdictOf(w, key, Some(via)), fill)
    ensures Repinned(w, key, via) != via
  {
    RepinnedIsHeld(w, key, via);
  }

  lemma {:induction false} FixedTwice(w: Wiring, d: Dict<Option<Entry>>, ks: set<string>, fill: bool)
    ensures Fixed(w, Fixed(w, d, ks, fill), ks, fill) == Fixed(w, d, ks, fill)
  {
    if d != [] {
      var n := |d| - 1;
      var f := Fixed(w, d, ks, fill);
      FixedTwice(w, d[..n], ks, fill);
      FixedLookup(w, d[..n], ks, fill, "");
      assert f[..n] == Fixed(w, d[..n], ks, fill);
      if d[n].1.Some? { FixedViaSettles(w, d[n].0, d[n].1.value.via, fill); }
    }
  }
}
