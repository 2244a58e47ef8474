/** nuc/fast_lane_sink.py: a stream written to disk in chunks, synced and dropped from the cache as it goes. */
module FastLaneSink {
  import opened Text
  import opened Seqs

  type Bytes = seq<bv8>

  /** How the kernel answers call number `op`: it may take fewer bytes than a write offers, and it may fail. */
  datatype Kernel = Kernel(short: seq<nat>, fault: Option<nat>) {
    predicate Fails(op: nat) {
      fault == Some(op)
    }

    /** `os.write` takes at least one byte of a nonempty buffer. */
    function Takes(op: nat, offered: nat): (n: nat)
      requires offered > 0
      ensures 0 < n <= offered
    {
      if op < |short| && 0 < short[op] <= offered then short[op] else offered
    }
  }

  function Flatten(chunks: seq<Bytes>): Bytes {
    if chunks == [] then [] else Flatten(chunks[..|chunks| - 1]) + chunks[|chunks| - 1]
  }

  /** The ranges follow one another from `lo` to `hi` with no gap and no overlap. */
  predicate Tiles(drops: seq<(nat, nat)>, lo: nat, hi: nat) {
    if drops == [] then lo == hi
    else
      var (offset, length) := drops[|drops| - 1];
      offset + length == hi && Tiles(drops[..|drops| - 1], lo, offset)
  }

  lemma {:induction false} TilesAdd(drops: seq<(nat, nat)>, lo: nat, mid: nat, hi: nat)
    requires Tiles(drops, lo, mid) && mid <= hi
    ensures Tiles(drops + [(mid, hi - mid)], lo, hi)
  {
    assert (drops + [(mid, hi - mid)])[..|drops|] == drops;
  }

  /** Which drop covers a byte: one, if it lies in the range. */
  function Covering(drops: seq<(nat, nat)>, x: nat): nat {
    if drops == [] then 0
    else
      var (offset, length) := drops[|drops| - 1];
      Covering(drops[..|drops| - 1], x) + if offset <= x < offset + length then 1 else 0
  }

  /** Tiling ranges drop every byte of the range once, and no other. */
  lemma {:induction false} TilesCoverOnce(drops: seq<(nat, nat)>, lo: nat, hi: nat, x: nat)
    requires Tiles(drops, lo, hi)
    ensures lo <= hi && Covering(drops, x) == if lo <= x < hi then 1 else 0
  {
    if drops != [] {
      TilesCoverOnce(drops[..|drops| - 1], lo, drops[|drops| - 1].0, x);
    }
  }

  function Max(x: int, y: int): int {
    if x < y then y else x
  }

  /** The bytes the run leaves in the cache at most: less than a sync interval, and one chunk. */
  function Bound(syncEvery: int, chunkBytes: nat): int {
    Max(1, syncEvery) - 1 + chunkBytes
  }

  /** That is less than a sync interval and a chunk; and just the chunk when every one is synced. */
  lemma {:induction false} BoundSays(syncEvery: int, chunkBytes: nat)
    ensures syncEvery >= 1 ==> chunkBytes <= Bound(syncEvery, chunkBytes) < syncEvery + chunkBytes
    ensures syncEvery <= 1 ==> Bound(syncEvery, chunkBytes) == chunkBytes
  {
  }

  /** `<out>.part` and `<out>`, and the ranges the kernel was told to drop. `clean` is the offset up to
      which nothing is left in the cache, and `peak` the most that ever was beyond it. */
  class Disk {
    var part: Option<Bytes>
    var out: Option<Bytes>
    var drops: seq<(nat, nat)>
    ghost var clean: nat
    ghost var peak: nat

    constructor (part: Option<Bytes>, out: Option<Bytes>)
      ensures this.part == part && this.out == out && drops == []
    {
      this.part, this.out, this.drops := part, out, [];
      this.clean, this.peak := 0, 0;
    }

    /** Opens `.part` to append, or empties it; returns its size. */
    method Open(resume: bool) returns (start: nat)
      modifies this
      ensures part == Some(Base(old(part), resume)) && start == |part.value|
      ensures out == old(out) && drops == old(drops) && clean == start && peak == 0
    {
      part := Some(if resume && part.Some? then part.value else []);
      start := |part.value|;
      clean, peak := start, 0;
    }

    method Append(view: Bytes)
      requires part.Some? && clean <= |part.value|
      modifies `part, `peak
      ensures part == Some(old(part.value) + view)
      ensures peak == Max(old(peak), |part.value| - clean)
    {
      part := Some(part.value + view);
      peak := Max(peak, |part.value| - clean);
    }

    method DropRange(offset: nat, length: nat)
      modifies `drops, `clean
      ensures drops == old(drops) + [(offset, length)] && clean == offset + length
    {
      drops := drops + [(offset, length)];
      clean := offset + length;
    }

    method Replace()
      requires part.Some?
      modifies `part, `out
      ensures out == old(part) && part == None
    {
      out, part := part, None;
    }
  }

  /** What a run starts from. */
  function Base(part: Option<Bytes>, resume: bool): Bytes {
    if resume && part.Some? then part.value else []
  }

  lemma {:induction false} BaseSays(part: Option<Bytes>, resume: bool, stream: Bytes)
    ensures !resume || part.None? ==> Base(part, resume) + stream == stream
    ensures resume && part.Some? ==> Base(part, resume) + stream == part.value + stream
  {
  }

  /** The inner loop: the whole buffer, however little each write takes; on a failure, some of it. */
  method WriteAll(disk: Disk, buf: Bytes, kernel: Kernel, op: nat) returns (ok: bool, op': nat)
    requires disk.part.Some? && disk.clean <= |disk.part.value|
    modifies disk`part, disk`peak
    ensures disk.part.Some? && old(disk.part.value) <= disk.part.value <= old(disk.part.value) + buf
    ensures ok ==> disk.part.value == old(disk.part.value) + buf
    ensures old(disk.peak) <= disk.peak <= Max(old(disk.peak), |old(disk.part.value)| + |buf| - disk.clean)
  {
    var view := buf;
    op' := op;
    ghost var was := disk.part.value;
    while view != []
      invariant disk.part.Some? && disk.part.value + view == was + buf && was <= disk.part.value
      invariant old(disk.peak) <= disk.peak <= Max(old(disk.peak), |was| + |buf| - disk.clean)
      decreases |view|
    {
      if kernel.Fails(op') {
        return false, op';
      }
      var n := kernel.Takes(op', |view|);
      assert disk.part.value + view[..n] + view[n..] == was + buf by { assert view[..n] + view[n..] == view; }
      disk.Append(view[..n]);
      view := view[n..];
      op' := op' + 1;
    }
    ok := true;
  }

  datatype Outcome = Done(bytes: nat, start: nat, appended: nat) | Failed

  /** What a run did, as its caller sees it. */
  ghost predicate Sunk(r: Outcome, base: Bytes, stream: Bytes, part: Option<Bytes>, out: Option<Bytes>,
      before: Option<Bytes>) {
    match r
    case Done(bytes, start, appended) =>
      && out == Some(base + stream) && part == None
      && bytes == |base + stream| && start == |base| && appended == |stream|
    case Failed =>
      && out == before && part.Some? && base <= part.value <= base + stream
  }

  /** One iteration's writes and, when due, its drop. */
  method SinkChunk(disk: Disk, buf: Bytes, syncEvery: int, kernel: Kernel, op: nat, total: nat, since: nat,
      ghost lo: nat, ghost before: seq<(nat, nat)>)
    returns (ok: bool, op': nat, since': nat)
    requires disk.part.Some? && |disk.part.value| == total && disk.clean == since <= total
    requires since == total || total - since < syncEvery
    requires Tiled(before, disk.drops, lo, since)
    modifies disk`part, disk`peak, disk`drops, disk`clean
    ensures disk.part.Some? && old(disk.part.value) <= disk.part.value <= old(disk.part.value) + buf
    ensures ok ==> disk.part.value == old(disk.part.value) + buf
    ensures disk.peak <= Max(old(disk.peak), Bound(syncEvery, |buf|))
    ensures ok ==> && disk.clean == since' <= total + |buf|
                   && (since' == total + |buf| || total + |buf| - since' < syncEvery)
    ensures ok ==> Tiled(before, disk.drops, lo, since')
  {
    since' := since;
    ok, op' := WriteAll(disk, buf, kernel, op);
    if !ok {
      return;
    }
    var total' := total + |buf|;
    if total' - since' >= syncEvery {
      if kernel.Fails(op') {
        return false, op', since';
      }
      ghost var new_ :| disk.drops == before + new_ && Tiles(new_, lo, since);
      TilesAdd(new_, lo, since, total');
      disk.DropRange(since', total' - since');
      assert disk.drops == before + (new_ + [(since, total' - since)]);
      since' := total';
      op' := op' + 1;
    }
  }

  /** What `stream.read` may return before the end: never nothing, never more than was asked for. */
  predicate IsStream(chunks: seq<Bytes>, chunkBytes: nat) {
    forall c | c in chunks :: 0 < |c| <= chunkBytes
  }

  /** The ranges `drops` gained since `before` tile the file from `lo` to `hi`. */
  ghost predicate Tiled(before: seq<(nat, nat)>, drops: seq<(nat, nat)>, lo: nat, hi: nat) {
    exists new_ :: drops == before + new_ && Tiles(new_, lo, hi)
  }

  /** Reads to the end of the stream, writing and dropping as it goes, then renames. */
  method Sink(disk: Disk, chunks: seq<Bytes>, chunkBytes: nat, syncEvery: int, resume: bool, kernel: Kernel)
    returns (r: Outcome)
    requires IsStream(chunks, chunkBytes)
    modifies disk
    ensures Sunk(r, Base(old(disk.part), resume), Flatten(chunks), disk.part, disk.out, old(disk.out))
    ensures disk.peak <= Bound(syncEvery, chunkBytes)
    ensures r.Done? ==> Tiled(old(disk.drops), disk.drops, r.start, r.bytes)
    ensures r.Done? && !resume ==> disk.out == Some(Flatten(chunks))
    ensures r.Done? && resume && old(disk.part).None? ==> disk.out == Some(Flatten(chunks))
    ensures r.Done? && resume && old(disk.part).Some? ==> disk.out == Some(old(disk.part).value + Flatten(chunks))
  {
    BaseSays(disk.part, resume, Flatten(chunks));
    var start := disk.Open(resume);
    var ok, total, since, op := SinkStream(disk, chunks, chunkBytes, syncEvery, kernel, start);
    TakeAll(chunks);
    if !ok || kernel.Fails(op) {
      return Failed;
    }
    ghost var new_ :| disk.drops == old(disk.drops) + new_ && Tiles(new_, start, since);
    TilesAdd(new_, start, since, total);
    disk.DropRange(since, total - since);
    assert disk.drops == old(disk.drops) + (new_ + [(since, total - since)]);
    if kernel.Fails(op + 1) {
      return Failed;
    }
    disk.Replace();
    r := Done(total, start, total - start);
  }

  /** The outer loop. */
  method SinkStream(disk: Disk, chunks: seq<Bytes>, chunkBytes: nat, syncEvery: int, kernel: Kernel, start: nat)
    returns (ok: bool, total: nat, since: nat, op: nat)
    requires IsStream(chunks, chunkBytes)
    requires disk.part.Some? && |disk.part.value| == start == disk.clean && disk.peak == 0
    modifies disk`part, disk`peak, disk`drops, disk`clean
    ensures disk.part.Some? && old(disk.part.value) <= disk.part.value <= old(disk.part.value) + Flatten(chunks)
    ensures disk.peak <= Bound(syncEvery, chunkBytes)
    ensures ok ==> && disk.part.value == old(disk.part.value) + Flatten(chunks)
                   && total == |disk.part.value| && since <= total
    ensures ok ==> Tiled(old(disk.drops), disk.drops, start, since)
  {
    total, since, op := start, start, 0;
    ghost var base, before := disk.part.value, disk.drops;
    assert disk.drops == before + [];
    var i := 0;
    assert base + Flatten(chunks[..0]) == base;
    while true
      invariant 0 <= i <= |chunks|
      invariant disk.part == Some(base + Flatten(chunks[..i])) && total == |disk.part.value|
                && disk.clean == since <= total
      invariant since == total || total - since < syncEvery
      invariant disk.peak <= Bound(syncEvery, chunkBytes)
      invariant Tiled(before, disk.drops, start, since)
      decreases |chunks| - i
    {
      FlattenPrefix(chunks, i);
      if kernel.Fails(op) {
        return false, total, since, op;
      }
      op := op + 1;
      if i == |chunks| {
        break;
      }
      var buf := chunks[i];
      assert buf in chunks;
      FlattenStep(base, chunks, i);
      ok, op, since := SinkChunk(disk, buf, syncEvery, kernel, op, total, since, start, before);
      FlattenPrefix(chunks, i + 1);
      if !ok {
        return;
      }
      total := total + |buf|;
      i := i + 1;
    }
    TakeAll(chunks);
    ok := true;
  }

  lemma {:induction false} FlattenStep(base: Bytes, chunks: seq<Bytes>, i: nat)
    requires i < |chunks|
    ensures base + Flatten(chunks[..i + 1]) == base + Flatten(chunks[..i]) + chunks[i]
  {
    TakeStep(chunks, i);
  }

  lemma {:induction false} FlattenPrefix(chunks: seq<Bytes>, i: nat)
    requires i <= |chunks|
    ensures Flatten(chunks[..i]) <= Flatten(chunks)
    decreases |chunks| - i
  {
    if i == |chunks| {
      TakeAll(chunks);
    } else {
      TakeStep(chunks, i);
      FlattenPrefix(chunks, i + 1);
    }
  }

  // ------------------------------------------------------------------ a transfer over several runs

  /** What the sender sends to a receiver that already has `n` bytes. */
  function Rest(file: Bytes, n: nat): Bytes {
    if n <= |file| then file[n..] else []
  }

  /** What is on disk before run `i`. */
  function Had(parts: seq<Bytes>, i: nat): Bytes
    requires i <= |parts|
  {
    if i == 0 then [] else parts[i - 1]
  }

  /** Runs that all failed, each after the first resuming with the rest of the file; run `i` left `parts[i]`. */
  ghost predicate Interrupted(file: Bytes, parts: seq<Bytes>, out: Option<Bytes>) {
    forall i | 0 <= i < |parts| :: RunFailed(file, parts, i, out)
  }

  ghost predicate RunFailed(file: Bytes, parts: seq<Bytes>, i: nat, out: Option<Bytes>)
    requires i < |parts|
  {
    Sunk(Failed, Had(parts, i), Rest(file, |Had(parts, i)|), Some(parts[i]), out, out)
  }

  lemma {:induction false} RestCompletes(file: Bytes, had: Bytes)
    requires had <= file
    ensures had + Rest(file, |had|) == file
  {
  }

  lemma {:induction false} PartsArePrefixes(file: Bytes, parts: seq<Bytes>, out: Option<Bytes>, i: nat)
    requires Interrupted(file, parts, out) && i <= |parts|
    ensures Had(parts, i) <= file
    decreases i
  {
    if i > 0 {
      PartsArePrefixes(file, parts, out, i - 1);
      assert RunFailed(file, parts, i - 1, out);
      RestCompletes(file, Had(parts, i - 1));
    }
  }

  /** However often and wherever a transfer dies, one resumed run that ends leaves the file, and an
      uninterrupted run leaves the same. */
  lemma {:induction false} ResumeCompletes(file: Bytes, parts: seq<Bytes>, before: Option<Bytes>, r: Outcome,
      part: Option<Bytes>, out: Option<Bytes>)
    requires Interrupted(file, parts, before)
    requires var had := Had(parts, |parts|); Sunk(r, had, Rest(file, |had|), part, out, before)
    ensures r.Done? ==> out == Some(file) && part == None && r.bytes == |file|
    ensures r == Failed ==> out == before && part.Some? && part.value <= file
  {
    var had := Had(parts, |parts|);
    PartsArePrefixes(file, parts, before, |parts|);
    RestCompletes(file, had);
  }

  /** The sender must skip what is already there: on a prefix of the file, a resumed run leaves the file
      exactly when it is sent the rest and nothing else. */
  lemma {:induction false} SenderMustSkip(file: Bytes, had: Bytes, stream: Bytes, r: Outcome, part: Option<Bytes>,
      out: Option<Bytes>, before: Option<Bytes>)
    requires had <= file && r.Done? && Sunk(r, had, stream, part, out, before)
    ensures out == Some(file) <==> stream == Rest(file, |had|)
  {
    assert (had + stream)[|had|..] == stream;
    RestCompletes(file, had);
  }
}
