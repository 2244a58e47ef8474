/** harness/driver_health.py: the sessions in a round's event log, and what they spent. */
module DriverHealth {
  import opened Text
  import opened Seqs
  import opened Order

  /** One line of the stream. `calls` counts the tool-use blocks of an assistant message, `child` says it
      comes from a sub-agent, and `Other` is any other object. */
  datatype Event =
    | NotAnObject
    | Init(sessionId: Option<string>)
    | Result(subtype: Option<string>, numTurns: Option<int>)
    | Assistant(child: bool, id: Option<string>, calls: nat, timestamp: Option<int>)
    | Other

  datatype Session = Session(
    toolCalls: nat, blocks: nat, numTurns: Option<int>, subtype: Option<string>, sessionId: Option<string>,
    ids: set<Option<string>>, stamps: seq<int>)

  const BLANK := Session(0, 0, None, None, None, {}, [])

  /** What one event adds to the session it falls in. */
  function Absorb(s: Session, e: Event): Session {
    match e
    case NotAnObject => s
    case Other => s
    case Init(id) => s.(sessionId := id)
    case Result(subtype, n) => s.(subtype := subtype, numTurns := n)
    case Assistant(child, id, calls, timestamp) =>
      var t := s.(blocks := s.blocks + 1);
      if child then t
      else
        var u := if calls > 0 then t.(toolCalls := t.toolCalls + calls, ids := t.ids + {id}) else t;
        if timestamp.Some? then u.(stamps := u.stamps + [timestamp.value]) else u
  }

  /** The loop's state: finished sessions, the current one, and whether its result has come. */
  datatype Walk = Walk(done: seq<Session>, cur: Option<Session>, closed: bool)

  function Step(w: Walk, e: Event): Walk {
    match e
    case NotAnObject => w
    case Init(id) => Walk(if w.cur.Some? then w.done + [w.cur.value] else w.done, Some(Absorb(BLANK, e)), false)
    case Result(_, _) => Walk(w.done, Some(Absorb(if w.cur.Some? then w.cur.value else BLANK, e)), true)
    case _ =>
      if w.cur.Some? && w.closed then Walk(w.done + [w.cur.value], Some(Absorb(BLANK, e)), false)
      else Walk(w.done, Some(Absorb(if w.cur.Some? then w.cur.value else BLANK, e)), false)
  }

  function WalkOver(events: seq<Event>): Walk {
    if events == [] then Walk([], None, false) else Step(WalkOver(events[..|events| - 1]), events[|events| - 1])
  }

  function AllOf(w: Walk): seq<Session> {
    if w.cur.Some? then w.done + [w.cur.value] else w.done
  }

  /** A session with neither an assistant message nor a result is no session. */
  predicate Kept(s: Session) {
    s.blocks > 0 || s.subtype.Some?
  }

  datatype Report = Report(turns: nat, toolCalls: nat, blocks: nat, numTurns: Option<int>, subtype: Option<string>,
                           sessionId: Option<string>, stamps: seq<int>, interrupted: bool)

  function ReportOf(s: Session): Report {
    Report(|s.ids|, s.toolCalls, s.blocks, s.numTurns, s.subtype, s.sessionId, s.stamps, s.subtype.None?)
  }

  function Reports(sessions: seq<Session>): seq<Report> {
    FlatMap(sessions, s => if Kept(s) then [ReportOf(s)] else [])
  }

  function Sessions(events: seq<Event>): seq<Report> {
    Reports(AllOf(WalkOver(events)))
  }

  method SplitSessions(events: seq<Event>) returns (out: seq<Report>)
    ensures out == Sessions(events)
  {
    var sessions := ReadSessions(events);
    out := [];
    for i := 0 to |sessions|
      invariant out == Reports(sessions[..i])
    {
      TakeStep(sessions, i);
      var s := sessions[i];
      if s.blocks == 0 && s.subtype.None? {
        continue;
      }
      out := out + [Report(|s.ids|, s.toolCalls, s.blocks, s.numTurns, s.subtype, s.sessionId, s.stamps,
                           s.subtype.None?)];
    }
    TakeAll(sessions);
  }

  method ReadSessions(events: seq<Event>) returns (sessions: seq<Session>)
    ensures sessions == AllOf(WalkOver(events))
  {
    sessions := [];
    var cur: Option<Session> := None;
    var closed := false;
    for i := 0 to |events|
      invariant Walk(sessions, cur, closed) == WalkOver(events[..i])
    {
      TakeStep(events, i);
      var obj := events[i];
      if obj.NotAnObject? {
        continue;
      }
      if obj.Init? {
        if cur.Some? {
          sessions := sessions + [cur.value];
        }
        cur := Some(BLANK.(sessionId := obj.sessionId));
        closed := false;
        continue;
      }
      if cur.None? {
        cur := Some(BLANK);
        closed := false;
      }
      if obj.Result? {
        cur := Some(cur.value.(subtype := obj.subtype, numTurns := obj.numTurns));
        closed := true;
        continue;
      }
      if closed {
        sessions := sessions + [cur.value];
        cur := Some(BLANK);
        closed := false;
      }
      if !obj.Assistant? {
        continue;
      }
      cur := Some(cur.value.(blocks := cur.value.blocks + 1));
      if obj.child {
        continue;
      }
      if obj.calls > 0 {
        cur := Some(cur.value.(toolCalls := cur.value.toolCalls + obj.calls, ids := cur.value.ids + {obj.id}));
      }
      if obj.timestamp.Some? {
        cur := Some(cur.value.(stamps := cur.value.stamps + [obj.timestamp.value]));
      }
    }
    TakeAll(events);
    if cur.Some? {
      sessions := sessions + [cur.value];
    }
  }

  // ------------------------------------------------------------------ sessions are stretches of the log

  function Summary(seg: seq<Event>): Session {
    if seg == [] then BLANK else Absorb(Summary(seg[..|seg| - 1]), seg[|seg| - 1])
  }

  predicate Object(e: Event) {
    !e.NotAnObject?
  }

  /** A stretch that one session is read from: an `init` only as its first object, and after a result
      nothing but results. */
  ghost predicate OneSession(seg: seq<Event>) {
    && (exists i :: 0 <= i < |seg| && Object(seg[i]))
    && (forall i, j | 0 <= i < j < |seg| && Object(seg[i]) :: !seg[j].Init?)
    && (forall i, j | 0 <= i < j < |seg| && seg[i].Result? && Object(seg[j]) :: seg[j].Result?)
  }

  datatype Cut = Cut(done: seq<seq<Event>>, cur: seq<Event>, begun: bool, closed: bool)

  function CutStep(c: Cut, e: Event): Cut {
    if e.NotAnObject? then c.(cur := c.cur + [e])
    else if c.begun && (e.Init? || (c.closed && !e.Result?)) then Cut(c.done + [c.cur], [e], true, e.Result?)
    else Cut(c.done, c.cur + [e], true, e.Result?)
  }

  function CutOver(events: seq<Event>): Cut {
    if events == [] then Cut([], [], false, false) else CutStep(CutOver(events[..|events| - 1]), events[|events| - 1])
  }

  /** The stretches of the log, the last one unfinished. */
  function Segments(events: seq<Event>): seq<seq<Event>> {
    var c := CutOver(events);
    if c.begun then c.done + [c.cur] else c.done
  }

  function Flatten(segs: seq<seq<Event>>): seq<Event> {
    if segs == [] then [] else Flatten(segs[..|segs| - 1]) + segs[|segs| - 1]
  }

  lemma {:induction false} FlattenAdd(segs: seq<seq<Event>>, seg: seq<Event>)
    ensures Flatten(segs + [seg]) == Flatten(segs) + seg
  {
    assert (segs + [seg])[..|segs|] == segs;
  }

  /** The stretches tile the log. */
  lemma {:induction false} CutTiles(events: seq<Event>)
    ensures var c := CutOver(events); Flatten(c.done) + c.cur == events
    ensures var c := CutOver(events); !c.begun ==> c.done == [] && !c.closed
  {
    if events != [] {
      var n := |events| - 1;
      CutTiles(events[..n]);
      CutStepTiles(CutOver(events[..n]), events[n]);
      assert events == events[..n] + [events[n]];
    }
  }

  lemma {:induction false} CutStepTiles(c: Cut, e: Event)
    requires !c.begun ==> c.done == [] && !c.closed
    ensures var c' := CutStep(c, e); Flatten(c'.done) + c'.cur == Flatten(c.done) + c.cur + [e]
    ensures var c' := CutStep(c, e); !c'.begun ==> c'.done == [] && !c'.closed
  {
    AppendAssoc(Flatten(c.done), c.cur, e);
    FlattenAdd(c.done, c.cur);
  }

  lemma {:induction false} SummaryAdd(seg: seq<Event>, e: Event)
    ensures Summary(seg + [e]) == Absorb(Summary(seg), e)
  {
    assert (seg + [e])[..|seg|] == seg;
  }

  /** The walk has read each finished stretch as a session, and the current one so far. */
  ghost predicate Matches(w: Walk, c: Cut) {
    && w.done == Map(c.done, Summary) && (w.cur.Some? <==> c.begun) && w.closed == c.closed
    && Summary(c.cur) == (if w.cur.Some? then w.cur.value else BLANK) && (!c.begun ==> !c.closed)
  }

  lemma {:induction false} MapAdd(segs: seq<seq<Event>>, seg: seq<Event>)
    ensures Map(segs + [seg], Summary) == Map(segs, Summary) + [Summary(seg)]
  {
    assert (segs + [seg])[..|segs|] == segs;
  }

  lemma {:induction false} MatchesStep(w: Walk, c: Cut, e: Event)
    requires Matches(w, c)
    ensures Matches(Step(w, e), CutStep(c, e))
  {
    SummaryAdd(c.cur, e);
    SummaryAdd([], e);
    assert [] + [e] == [e];
    MapAdd(c.done, c.cur);
  }

  lemma {:induction false} WalkSummarises(events: seq<Event>)
    ensures Matches(WalkOver(events), CutOver(events))
  {
    if events != [] {
      var n := |events| - 1;
      WalkSummarises(events[..n]);
      MatchesStep(WalkOver(events[..n]), CutOver(events[..n]), events[n]);
    }
  }

  /** Each session is the summary of its own stretch, in order, and nothing of the log is left out. */
  lemma {:induction false} SessionsAreSegments(events: seq<Event>)
    ensures AllOf(WalkOver(events)) == Map(Segments(events), Summary)
    ensures Segments(events) != [] ==> Flatten(Segments(events)) == events
    ensures Segments(events) == [] ==> forall e | e in events :: !Object(e)
  {
    var c := CutOver(events);
    WalkSummarises(events);
    CutTiles(events);
    FlattenAdd(c.done, c.cur);
    MapAdd(c.done, c.cur);
    if !c.begun { NothingBegun(events); }
  }

  lemma {:induction false} NothingBegun(events: seq<Event>)
    requires !CutOver(events).begun
    ensures forall e | e in events :: !Object(e)
  {
    if events != [] {
      NothingBegun(events[..|events| - 1]);
      assert events == events[..|events| - 1] + [events[|events| - 1]];
    }
  }

  /** What the unfinished stretch is known to be. */
  ghost predicate GoesOn(c: Cut) {
    && (c.begun ==> OneSession(c.cur))
    && (!c.begun ==> !c.closed && NoObject(c.cur))
    && (c.closed <==> HasResult(c.cur))
  }

  ghost predicate NoObject(seg: seq<Event>) {
    forall i | 0 <= i < |seg| :: !Object(seg[i])
  }

  ghost predicate HasResult(seg: seq<Event>) {
    exists i :: 0 <= i < |seg| && seg[i].Result?
  }

  lemma {:induction false} HasResultAdd(seg: seq<Event>, e: Event)
    ensures HasResult(seg + [e]) <==> HasResult(seg) || e.Result?
    ensures HasResult([e]) <==> e.Result?
  {
    if i :| 0 <= i < |seg| && seg[i].Result? {
      assert (seg + [e])[i].Result?;
    }
    assert (seg + [e])[|seg|] == e && [e][0] == e;
  }

  lemma {:induction false} NoObjectAdd(seg: seq<Event>, e: Event)
    requires NoObject(seg) && !Object(e)
    ensures NoObject(seg + [e])
  {
  }

  lemma {:induction false} Extends(seg: seq<Event>, e: Event)
    requires OneSession(seg) && !e.Init?
    requires Object(e) ==> e.Result? || !HasResult(seg)
    ensures OneSession(seg + [e])
  {
    var t := seg + [e];
    var i :| 0 <= i < |seg| && Object(seg[i]);
    assert Object(t[i]);
  }

  lemma {:induction false} Starts(seg: seq<Event>, e: Event)
    requires Object(e) && NoObject(seg)
    ensures OneSession(seg + [e])
  {
    var t := seg + [e];
    assert Object(t[|seg|]);
    assert forall i | 0 <= i < |seg| :: !Object(t[i]);
  }

  lemma {:induction false} CutGoesOn(c: Cut, e: Event)
    requires GoesOn(c)
    ensures GoesOn(CutStep(c, e))
  {
    HasResultAdd(c.cur, e);
    if e.NotAnObject? {
      if c.begun { Extends(c.cur, e); } else { NoObjectAdd(c.cur, e); }
    } else if !c.begun {
      Starts(c.cur, e);
    } else if e.Init? || (c.closed && !e.Result?) {
      Starts([], e);
      assert [] + [e] == [e];
    } else {
      Extends(c.cur, e);
    }
  }

  /** Every stretch is one session's: it has an object, an `init` comes only first, and nothing but
      another result follows a result. */
  lemma {:induction false} SegmentsAreSessions(events: seq<Event>)
    ensures GoesOn(CutOver(events)) && forall seg | seg in CutOver(events).done :: OneSession(seg)
    ensures forall seg | seg in Segments(events) :: OneSession(seg)
  {
    if events != [] {
      var n := |events| - 1;
      SegmentsAreSessions(events[..n]);
      CutGoesOn(CutOver(events[..n]), events[n]);
    }
  }

  /** The i-th stretch starts where it must: with an `init`, or with content after a result. */
  ghost predicate Begins(segs: seq<seq<Event>>, i: nat)
    requires 0 < i < |segs|
  {
    segs[i] != [] &&
    (segs[i][0].Init? || (HasResult(segs[i - 1]) && Object(segs[i][0]) && !segs[i][0].Result?))
  }

  ghost predicate AllBegin(segs: seq<seq<Event>>) {
    forall i | 0 < i < |segs| :: Begins(segs, i)
  }

  lemma {:induction false} BeginsAdd(done: seq<seq<Event>>, cur: seq<Event>, e: Event)
    requires AllBegin(done + [cur])
    requires e.Init? || (HasResult(cur) && Object(e) && !e.Result?)
    ensures AllBegin(done + [cur] + [[e]])
  {
    var segs, more := done + [cur], done + [cur] + [[e]];
    forall i | 0 < i < |more| ensures Begins(more, i) {
      if i < |segs| {
        assert more[i] == segs[i] && more[i - 1] == segs[i - 1];
        assert Begins(segs, i);
      } else {
        assert more[i] == [e] && more[i - 1] == cur;
      }
    }
  }

  lemma {:induction false} BeginsGrow(done: seq<seq<Event>>, cur: seq<Event>, e: Event)
    requires AllBegin(done + [cur]) && (done == [] || cur != [])
    ensures AllBegin(done + [cur + [e]])
  {
    var segs, more := done + [cur], done + [cur + [e]];
    forall i | 0 < i < |more| ensures Begins(more, i) {
      assert Begins(segs, i) && more[i - 1] == segs[i - 1];
      if i == |done| { assert more[i][0] == segs[i][0]; } else { assert more[i] == segs[i]; }
    }
  }

  /** And no stretch is cut short: every one but the first starts with an `init`, or with content where the
      one before has its result. */
  lemma {:induction false} SegmentsBegin(events: seq<Event>)
    ensures var c := CutOver(events); AllBegin(c.done + [c.cur]) && (!c.begun ==> c.done == [])
    ensures AllBegin(Segments(events))
  {
    if events != [] {
      var n := |events| - 1;
      var c, e := CutOver(events[..n]), events[n];
      SegmentsBegin(events[..n]);
      SegmentsAreSessions(events[..n]);
      if Object(e) && c.begun && (e.Init? || (c.closed && !e.Result?)) {
        BeginsAdd(c.done, c.cur, e);
      } else {
        BeginsGrow(c.done, c.cur, e);
      }
    }
  }

  /** What may follow within one stretch. */
  ghost predicate FitsAfter(cur: seq<Event>, e: Event) {
    (!NoObject(cur) ==> !e.Init?) && (HasResult(cur) && Object(e) ==> e.Result?)
  }

  lemma {:induction false} FitsInside(seg: seq<Event>, k: nat)
    requires OneSession(seg) && k < |seg|
    ensures FitsAfter(seg[..k], seg[k])
  {
    if !NoObject(seg[..k]) {
      var i :| 0 <= i < k && Object(seg[..k][i]);
      assert Object(seg[i]);
    }
    if HasResult(seg[..k]) {
      var i :| 0 <= i < k && seg[..k][i].Result?;
      assert seg[i].Result?;
    }
  }

  /** The cut with these stretches done and this one under way. */
  ghost function CutAt(done: seq<seq<Event>>, cur: seq<Event>): Cut {
    Cut(done, cur, !NoObject(cur), HasResult(cur))
  }

  lemma {:induction false} CutStepInside(done: seq<seq<Event>>, cur: seq<Event>, e: Event)
    requires FitsAfter(cur, e)
    ensures CutStep(CutAt(done, cur), e) == CutAt(done, cur + [e])
  {
    HasResultAdd(cur, e);
    if Object(e) {
      assert Object((cur + [e])[|cur|]);
    } else if NoObject(cur) {
      NoObjectAdd(cur, e);
    } else {
      var i :| 0 <= i < |cur| && Object(cur[i]);
      assert Object((cur + [e])[i]);
    }
  }

  lemma {:induction false} CutStepBegins(segs: seq<seq<Event>>)
    requires |segs| > 1 && Begins(segs, |segs| - 1) && !NoObject(segs[|segs| - 2])
    ensures var n := |segs| - 1;
            CutStep(CutAt(segs[..n - 1], segs[n - 1]), segs[n][0]) == CutAt(segs[..n], segs[n][..1])
  {
    var n := |segs| - 1;
    var e := segs[n][0];
    assert segs[..n] == segs[..n - 1] + [segs[n - 1]] && segs[n][..1] == [e] && [e][0] == e;
    HasResultAdd([], e);
  }

  lemma {:induction false} CutAdd(events: seq<Event>, e: Event)
    ensures CutOver(events + [e]) == CutStep(CutOver(events), e)
  {
    assert (events + [e])[..|events|] == events;
  }

  predicate Advances(at: int -> Cut, seg: seq<Event>, k: nat)
    requires k < |seg|
  {
    CutStep(at(k), seg[k]) == at(k + 1)
  }

  /** Reading a stretch from its `k`-th event on, when what the cut is after each event is known. */
  lemma {:induction false} CutThrough(front: seq<Event>, at: int -> Cut, seg: seq<Event>, k: nat)
    requires k <= |seg| && CutOver(front + seg[..k]) == at(k)
    requires forall i {:trigger Advances(at, seg, i)} | k <= i < |seg| :: Advances(at, seg, i)
    ensures CutOver(front + seg) == at(|seg|)
    decreases |seg| - k
  {
    if k == |seg| {
      TakeAll(seg);
    } else {
      assert Advances(at, seg, k);
      CutAdd(front + seg[..k], seg[k]);
      TakeStep(seg, k);
      AppendAssoc(front, seg[..k], seg[k]);
      CutThrough(front, at, seg, k + 1);
    }
  }

  lemma {:induction false} CutSession(front: seq<Event>, done: seq<seq<Event>>, seg: seq<Event>, k: nat)
    requires OneSession(seg) && k <= |seg| && CutOver(front + seg[..k]) == CutAt(done, seg[..k])
    ensures CutOver(front + seg) == CutAt(done, seg)
  {
    var at := (i: int) => if 0 <= i <= |seg| then CutAt(done, seg[..i]) else CutAt(done, []);
    forall i | k <= i < |seg| ensures Advances(at, seg, i) {
      InsideAdvances(done, seg, i);
    }
    CutThrough(front, at, seg, k);
    TakeAll(seg);
  }

  lemma {:induction false} InsideAdvances(done: seq<seq<Event>>, seg: seq<Event>, i: nat)
    requires OneSession(seg) && i < |seg|
    ensures CutStep(CutAt(done, seg[..i]), seg[i]) == CutAt(done, seg[..i + 1])
  {
    FitsInside(seg, i);
    TakeStep(seg, i);
    CutStepInside(done, seg[..i], seg[i]);
  }

  lemma {:induction false} CutFirst(seg: seq<Event>)
    requires OneSession(seg)
    ensures CutOver(Flatten([seg])) == CutAt([], seg)
  {
    NothingCut(seg);
    CutSession([], [], seg, 0);
    FlattenOne(seg);
  }

  lemma {:induction false} NothingCut(seg: seq<Event>)
    ensures CutOver([] + seg[..0]) == CutAt([], seg[..0])
  {
    assert seg[..0] == [];
  }

  lemma {:induction false} FlattenOne(seg: seq<Event>)
    ensures Flatten([seg]) == [] + seg
  {
    FlattenAdd([], seg);
    assert [] + [seg] == [seg];
  }

  /** One session each, and none cut short. */
  ghost predicate IsCut(segs: seq<seq<Event>>) {
    AllBegin(segs) && forall seg | seg in segs :: OneSession(seg)
  }

  lemma {:induction false} CutPrefix(segs: seq<seq<Event>>)
    requires |segs| > 1 && IsCut(segs)
    ensures var n := |segs| - 1;
            && IsCut(segs[..n]) && OneSession(segs[n]) && Begins(segs, n) && !NoObject(segs[n - 1])
            && segs[..n][..n - 1] == segs[..n - 1]
  {
    var n := |segs| - 1;
    var before := segs[..n];
    forall i | 0 < i < n ensures Begins(before, i) {
      assert Begins(segs, i);
    }
    assert segs[n] in segs && segs[n - 1] in segs && OneSession(segs[n - 1]);
  }

  lemma {:induction false} CutNext(segs: seq<seq<Event>>)
    requires |segs| > 1 && IsCut(segs)
    requires CutOver(Flatten(segs[..|segs| - 1])) == CutAt(segs[..|segs| - 2], segs[|segs| - 2])
    ensures CutOver(Flatten(segs)) == CutAt(segs[..|segs| - 1], segs[|segs| - 1])
  {
    var n := |segs| - 1;
    var front, seg := Flatten(segs[..n]), segs[n];
    CutPrefix(segs);
    CutStepBegins(segs);
    CutAdd(front, seg[0]);
    assert seg[..1] == [seg[0]];
    CutSession(front, segs[..n], seg, 1);
  }

  lemma {:induction false} CutIsOnly(segs: seq<seq<Event>>)
    requires segs != [] && IsCut(segs)
    ensures CutOver(Flatten(segs)) == CutAt(segs[..|segs| - 1], segs[|segs| - 1])
  {
    if |segs| == 1 {
      assert segs[0] in segs && segs == [segs[0]];
      CutFirst(segs[0]);
    } else {
      CutPrefix(segs);
      CutIsOnly(segs[..|segs| - 1]);
      CutNext(segs);
    }
  }

  lemma {:induction false} CutsBack(segs: seq<seq<Event>>)
    requires segs != [] && IsCut(segs)
    ensures Segments(Flatten(segs)) == segs
  {
    var n := |segs| - 1;
    CutIsOnly(segs);
    assert segs[n] in segs && OneSession(segs[n]);
    assert segs == segs[..n] + [segs[n]];
  }

  lemma {:induction false} SegmentsAreCut(events: seq<Event>)
    ensures IsCut(Segments(events))
  {
    SegmentsAreSessions(events);
    SegmentsBegin(events);
  }

  /** The stretches are the only way to cut a log like that: into one session each, none cut short. */
  lemma {:induction false} SegmentsAreUnique(segs: seq<seq<Event>>)
    requires segs != []
    ensures segs == Segments(Flatten(segs)) <==> IsCut(segs)
  {
    SegmentsAreCut(Flatten(segs));
    if IsCut(segs) { CutsBack(segs); }
  }

  // ------------------------------------------------------------------ conservation

  /** Tool-use blocks and identifiers of messages that are not a sub-agent's. */
  function Calls(e: Event): nat {
    if e.Assistant? && !e.child then e.calls else 0
  }

  function Messages(e: Event): nat {
    if e.Assistant? then 1 else 0
  }

  function Sum(events: seq<Event>, f: Event -> nat): nat {
    if events == [] then 0 else Sum(events[..|events| - 1], f) + f(events[|events| - 1])
  }

  function Ids(events: seq<Event>): set<Option<string>> {
    set e | e in events && Calls(e) > 0 :: e.id
  }

  lemma {:induction false} IdsStep(seg: seq<Event>)
    requires seg != []
    ensures var n := |seg| - 1; Ids(seg) == Ids(seg[..n]) + (if Calls(seg[n]) > 0 then {seg[n].id} else {})
  {
    var n := |seg| - 1;
    assert seg == seg[..n] + [seg[n]] && seg[n] in seg;
  }

  lemma {:induction false} AbsorbHolds(s: Session, e: Event)
    ensures var t := Absorb(s, e);
            && t.toolCalls == s.toolCalls + Calls(e) && t.blocks == s.blocks + Messages(e)
            && t.ids == s.ids + (if Calls(e) > 0 then {e.id} else {})
  {
  }

  lemma {:induction false} AddId(ids: set<Option<string>>, id: Option<string>)
    ensures |ids + {id}| <= |ids| + 1
  {
  }

  /** A stretch's session holds exactly its work, and has no more turns than calls. */
  lemma {:induction false} SummaryHolds(seg: seq<Event>)
    ensures var s := Summary(seg);
            && s.toolCalls == Sum(seg, Calls) && s.blocks == Sum(seg, Messages) && s.ids == Ids(seg)
            && |s.ids| <= s.toolCalls && (s.blocks == 0 ==> s.toolCalls == 0)
  {
    if seg != [] {
      var n := |seg| - 1;
      SummaryHolds(seg[..n]);
      IdsStep(seg);
      AbsorbHolds(Summary(seg[..n]), seg[n]);
      if Calls(seg[n]) > 0 { AddId(Ids(seg[..n]), seg[n].id); }
    }
  }

  /** What else a session keeps: the outcome and turn count of its last result, and the identifier of its last
      `init`. */
  lemma {:induction false} SummaryKeeps(seg: seq<Event>, i: nat)
    requires i < |seg|
    ensures seg[i].Result? && (forall j | i < j < |seg| :: !seg[j].Result?) ==>
              Summary(seg).subtype == seg[i].subtype && Summary(seg).numTurns == seg[i].numTurns
    ensures seg[i].Init? && (forall j | i < j < |seg| :: !seg[j].Init?) ==> Summary(seg).sessionId == seg[i].sessionId
  {
    if i < |seg| - 1 { SummaryKeeps(seg[..|seg| - 1], i); }
  }

  /** The instants of the main loop's messages, in order. */
  function StampsOf(seg: seq<Event>): seq<int> {
    FlatMap(seg, (e: Event) =>
      if e.Assistant? && !e.child && e.timestamp.Some? then [e.timestamp.value] else [])
  }

  lemma {:induction false} SummaryStamps(seg: seq<Event>)
    ensures Summary(seg).stamps == StampsOf(seg)
  {
    if seg != [] { SummaryStamps(seg[..|seg| - 1]); }
  }

  ghost predicate NoneOf(seg: seq<Event>, kind: Event -> bool) {
    forall e | e in seg :: !kind(e)
  }

  lemma {:induction false} NoneOfFront(seg: seq<Event>, kind: Event -> bool)
    requires seg != [] && NoneOf(seg, kind)
    ensures NoneOf(seg[..|seg| - 1], kind) && !kind(seg[|seg| - 1])
  {
    assert seg[|seg| - 1] in seg;
  }

  /** And a stretch without a result has no outcome: its session was interrupted. */
  lemma {:induction false} SummaryInterrupted(seg: seq<Event>)
    requires NoneOf(seg, (e: Event) => e.Result?)
    ensures Summary(seg).subtype == None && Summary(seg).numTurns == None && ReportOf(Summary(seg)).interrupted
  {
    if seg != [] {
      NoneOfFront(seg, (e: Event) => e.Result?);
      SummaryInterrupted(seg[..|seg| - 1]);
    }
  }

  lemma {:induction false} SummaryAnonymous(seg: seq<Event>)
    requires NoneOf(seg, (e: Event) => e.Init?)
    ensures Summary(seg).sessionId == None
  {
    if seg != [] {
      NoneOfFront(seg, (e: Event) => e.Init?);
      SummaryAnonymous(seg[..|seg| - 1]);
    }
  }

  function TotalCalls(out: seq<Report>): nat {
    if out == [] then 0 else TotalCalls(out[..|out| - 1]) + out[|out| - 1].toolCalls
  }

  function TotalBlocks(out: seq<Report>): nat {
    if out == [] then 0 else TotalBlocks(out[..|out| - 1]) + out[|out| - 1].blocks
  }

  function TotalTurns(out: seq<Report>): nat {
    if out == [] then 0 else TotalTurns(out[..|out| - 1]) + out[|out| - 1].turns
  }

  lemma {:induction false} SumConcat(a: seq<Event>, b: seq<Event>, f: Event -> nat)
    ensures Sum(a + b, f) == Sum(a, f) + Sum(b, f)
  {
    if b == [] {
      assert a + b == a;
    } else {
      assert (a + b)[..|a + b| - 1] == a + b[..|b| - 1];
      SumConcat(a, b[..|b| - 1], f);
    }
  }

  lemma {:induction false} IdsConcat(a: seq<Event>, b: seq<Event>)
    ensures Ids(a + b) == Ids(a) + Ids(b)
  {
  }

  /** Stretch by stretch, the reports hold all the work; dropping an empty session drops none. */
  lemma {:induction false} ReportsHold(segs: seq<seq<Event>>)
    ensures var out := Reports(Map(segs, Summary));
            && TotalCalls(out) == Sum(Flatten(segs), Calls) && TotalBlocks(out) == Sum(Flatten(segs), Messages)
            && |Ids(Flatten(segs))| <= TotalTurns(out) <= TotalCalls(out)
  {
    if segs == [] {
      assert Ids([]) == {};
    } else {
      var n := |segs| - 1;
      var seg := segs[n];
      ReportsHold(segs[..n]);
      SumConcat(Flatten(segs[..n]), seg, Calls);
      SumConcat(Flatten(segs[..n]), seg, Messages);
      IdsConcat(Flatten(segs[..n]), seg);
      SummaryHolds(seg);
      ReportsStep(segs);
    }
  }

  lemma {:induction false} ReportsStep(segs: seq<seq<Event>>)
    requires segs != []
    ensures var n := |segs| - 1;
            var before, out, s := Reports(Map(segs[..n], Summary)), Reports(Map(segs, Summary)), Summary(segs[n]);
            && TotalCalls(out) == TotalCalls(before) + (if Kept(s) then s.toolCalls else 0)
            && TotalBlocks(out) == TotalBlocks(before) + (if Kept(s) then s.blocks else 0)
            && TotalTurns(out) == TotalTurns(before) + (if Kept(s) then |s.ids| else 0)
  {
    var n := |segs| - 1;
    var before := Reports(Map(segs[..n], Summary));
    assert Map(segs, Summary)[..n] == Map(segs[..n], Summary);
    if Kept(Summary(segs[n])) {
      assert (before + [ReportOf(Summary(segs[n]))])[..|before|] == before;
    } else {
      assert before + [] == before;
    }
  }

  /** Splitting conserves the round's work: the sessions together hold every tool-use block that is not a
      sub-agent's once and every assistant message once, and a whole-log count of turns lies between
      the number of distinct messages with a tool use and the number of blocks. */
  lemma {:induction false} SplitConserves(events: seq<Event>)
    ensures var out := Sessions(events);
            && TotalCalls(out) == Sum(events, Calls) && TotalBlocks(out) == Sum(events, Messages)
            && |Ids(events)| <= TotalTurns(out) <= TotalCalls(out)
  {
    SessionsAreSegments(events);
    ReportsHold(Segments(events));
    if Segments(events) == [] {
      NoWork(events);
      assert Reports([]) == [];
    }
  }

  ghost predicate SharesId(a: seq<Event>, b: seq<Event>) {
    Ids(a) * Ids(b) != {}
  }

  /** Two stretches with a call under one identifier (a missing identifier counts as one). */
  ghost predicate Overlap(segs: seq<seq<Event>>) {
    exists i, j :: 0 <= i < j < |segs| && SharesId(segs[i], segs[j])
  }

  lemma {:induction false} OverlapSplits(segs: seq<seq<Event>>)
    requires Overlap(segs)
    ensures var n := |segs| - 1; Overlap(segs[..n]) || SharesId(Flatten(segs[..n]), segs[n])
  {
    var n := |segs| - 1;
    var i, j :| 0 <= i < j < |segs| && SharesId(segs[i], segs[j]);
    if j < n {
      assert SharesId(segs[..n][i], segs[..n][j]);
    } else {
      var id :| id in Ids(segs[i]) * Ids(segs[n]);
      assert id in Ids(segs[..n][i]);
      IdsOfFlatten(segs[..n], id);
      assert id in Ids(Flatten(segs[..n])) * Ids(segs[n]);
    }
  }

  lemma {:induction false} OverlapGrows(segs: seq<seq<Event>>)
    requires segs != []
    requires var n := |segs| - 1; Overlap(segs[..n]) || SharesId(Flatten(segs[..n]), segs[n])
    ensures Overlap(segs)
  {
    var n := |segs| - 1;
    if Overlap(segs[..n]) {
      var i, j :| 0 <= i < j < n && SharesId(segs[..n][i], segs[..n][j]);
      assert SharesId(segs[i], segs[j]);
    } else {
      var id :| id in Ids(Flatten(segs[..n])) * Ids(segs[n]);
      IdsOfFlatten(segs[..n], id);
      var i :| 0 <= i < n && id in Ids(segs[..n][i]);
      assert id in Ids(segs[i]) * Ids(segs[n]);
      assert SharesId(segs[i], segs[n]);
    }
  }

  lemma {:induction false} IdsOfFlatten(segs: seq<seq<Event>>, id: Option<string>)
    ensures id in Ids(Flatten(segs)) <==> exists i :: 0 <= i < |segs| && id in Ids(segs[i])
  {
    if segs != [] {
      var n := |segs| - 1;
      IdsOfFlatten(segs[..n], id);
      IdsConcat(Flatten(segs[..n]), segs[n]);
      if i :| 0 <= i < n && id in Ids(segs[..n][i]) { assert id in Ids(segs[i]); }
      if i :| 0 <= i < |segs| && id in Ids(segs[i]) { assert i < n ==> id in Ids(segs[..n][i]); }
    }
  }

  lemma {:induction false} UnionSize(a: set<Option<string>>, b: set<Option<string>>)
    ensures |a + b| == |a| + |b| - |a * b|
    ensures |a * b| == 0 <==> a * b == {}
  {
  }

  lemma {:induction false} TurnsAreIds(segs: seq<seq<Event>>)
    ensures var turns, ids := TotalTurns(Reports(Map(segs, Summary))), |Ids(Flatten(segs))|;
            ids <= turns && (ids == turns <==> !Overlap(segs))
  {
    if segs == [] {
      assert Ids([]) == {};
    } else {
      var n := |segs| - 1;
      TurnsAreIds(segs[..n]);
      SummaryHolds(segs[n]);
      ReportsStep(segs);
      IdsConcat(Flatten(segs[..n]), segs[n]);
      UnionSize(Ids(Flatten(segs[..n])), Ids(segs[n]));
      if Overlap(segs) {
        OverlapSplits(segs);
      } else if Overlap(segs[..n]) || SharesId(Flatten(segs[..n]), segs[n]) {
        OverlapGrows(segs);
      }
    }
  }

  /** `turns_all` is what a whole-file count of turns gives exactly when no two sessions share the identifier
      of a message. */
  lemma {:induction false} WhenTurnsAreWholeFile(events: seq<Event>)
    ensures TotalTurns(Sessions(events)) == |Ids(events)| <==> !Overlap(Segments(events))
  {
    SessionsAreSegments(events);
    TurnsAreIds(Segments(events));
    if Segments(events) == [] {
      NoWork(events);
      assert Reports([]) == [];
    }
  }

  lemma {:induction false} NoWork(events: seq<Event>)
    requires forall e | e in events :: !Object(e)
    ensures Sum(events, Calls) == 0 && Sum(events, Messages) == 0 && Ids(events) == {}
  {
    if events != [] {
      NoWork(events[..|events| - 1]);
      IdsStep(events);
      assert events[|events| - 1] in events;
    }
  }

  // ------------------------------------------------------------------ the budget

  datatype Budget = Budget(sessions: nat, turns: nat, turnsAll: nat, toolCalls: nat, numTurns: Option<int>,
                           maxTurnsHit: bool)

  function TurnBudget(events: seq<Event>): Option<Budget> {
    var out := Sessions(events);
    if out == [] then None
    else
      var last := out[|out| - 1];
      Some(Budget(|out|, last.turns, TotalTurns(out), TotalCalls(out), last.numTurns,
                  exists r | r in out :: r.subtype == Some("error_max_turns")))
  }

  datatype Headroom = Headroom(budget: Budget, turnsSaved: int, remaining: int, serialWouldHaveDied: bool)

  function HeadroomOf(events: seq<Event>, maxTurns: int): Option<Headroom> {
    var tb := TurnBudget(events);
    if tb.None? then None
    else Some(Headroom(tb.value, tb.value.toolCalls - tb.value.turnsAll, maxTurns - tb.value.turns,
                       tb.value.toolCalls > maxTurns))
  }

  /** The last session's turns are part of the whole, and batching never costs a turn: without it the
      round would have needed at least as many. */
  lemma {:induction false} BatchingNeverCosts(events: seq<Event>, maxTurns: int)
    ensures var h := HeadroomOf(events, maxTurns);
            h.Some? ==> && h.value.turnsSaved >= 0 && h.value.budget.turns <= h.value.budget.turnsAll
                        && h.value.budget.turnsAll + h.value.turnsSaved == Sum(events, Calls)
                        && (h.value.remaining < 0 ==> h.value.serialWouldHaveDied)
  {
    SplitConserves(events);
  }

  /** The budget of a log, from its reported sessions: how many there are, the turns and the turn count of the
      last, the sums over all, and whether any of them hit the limit; and the headroom from the budget. */
  lemma {:induction false} BudgetSays(events: seq<Event>, maxTurns: int)
    requires Sessions(events) != []
    ensures var out, h := Sessions(events), HeadroomOf(events, maxTurns);
            var last, b := out[|out| - 1], h.value.budget;
            && h.Some? && b.sessions == |out| && b.turns == last.turns && b.numTurns == last.numTurns
            && b.turnsAll == TotalTurns(out) && b.toolCalls == TotalCalls(out)
            && (b.maxTurnsHit <==> exists s :: s in out && s.subtype == Some("error_max_turns"))
            && h.value.remaining + last.turns == maxTurns && h.value.turnsSaved + b.turnsAll == b.toolCalls
            && (h.value.serialWouldHaveDied <==> b.toolCalls > maxTurns)
  {
  }

  /** Some session alone made more calls than the limit, which is per session. */
  ghost predicate SomeSessionOverruns(events: seq<Event>, maxTurns: int) {
    OverrunIn(Sessions(events), maxTurns)
  }

  ghost predicate OverrunIn(out: seq<Report>, maxTurns: int) {
    exists s :: s in out && s.toolCalls > maxTurns
  }

  ghost predicate OneWorks(out: seq<Report>) {
    forall i, j | 0 <= i < j < |out| :: out[i].toolCalls == 0 || out[j].toolCalls == 0
  }

  lemma {:induction false} CallsOf(out: seq<Report>, i: nat)
    requires i < |out|
    ensures out[i].toolCalls <= TotalCalls(out)
  {
    if i < |out| - 1 { CallsOf(out[..|out| - 1], i); }
  }

  lemma {:induction false} CallsOfTwo(out: seq<Report>, i: nat, j: nat)
    requires i < j < |out|
    ensures out[i].toolCalls + out[j].toolCalls <= TotalCalls(out)
  {
    if j < |out| - 1 { CallsOfTwo(out[..|out| - 1], i, j); } else { CallsOf(out[..|out| - 1], i); }
  }

  /** The session with the most calls. */
  lemma {:induction false} Busiest(out: seq<Report>) returns (k: nat)
    requires out != []
    ensures k < |out| && forall i | 0 <= i < |out| :: out[i].toolCalls <= out[k].toolCalls
  {
    var n := |out| - 1;
    if n == 0 { return 0; }
    k := Busiest(out[..n]);
    if out[n].toolCalls > out[k].toolCalls {
      k := n;
    }
  }

  /** When one session does all the calls, the total is its calls. */
  lemma {:induction false} OneWorksTotal(out: seq<Report>)
    requires OneWorks(out) && out != []
    ensures exists k :: 0 <= k < |out| && out[k].toolCalls == TotalCalls(out)
  {
    var n := |out| - 1;
    if n == 0 {
      assert TotalCalls(out[..0]) == 0;
      assert out[0].toolCalls == TotalCalls(out);
    } else {
      OneWorksTotal(out[..n]);
      var k :| 0 <= k < n && out[..n][k].toolCalls == TotalCalls(out[..n]);
      assert out[k].toolCalls == 0 || out[n].toolCalls == 0;
      if out[n].toolCalls == 0 {
        assert out[k].toolCalls == TotalCalls(out);
      } else {
        assert out[n].toolCalls == TotalCalls(out);
      }
    }
  }

  /** An overrun of one session is an overrun of the whole round. */
  lemma {:induction false} OverrunIsCounted(out: seq<Report>, maxTurns: int)
    ensures OverrunIn(out, maxTurns) ==> TotalCalls(out) > maxTurns
  {
    if s :| s in out && s.toolCalls > maxTurns {
      var i :| 0 <= i < |out| && out[i] == s;
      CallsOf(out, i);
    }
  }

  lemma {:induction false} TwoWorkMisleads(out: seq<Report>) returns (maxTurns: nat)
    requires !OneWorks(out)
    ensures TotalCalls(out) > maxTurns && !OverrunIn(out, maxTurns)
  {
    var k := Busiest(out);
    maxTurns := out[k].toolCalls;
    var i, j :| 0 <= i < j < |out| && out[i].toolCalls != 0 && out[j].toolCalls != 0;
    var other := if i == k then j else i;
    if other < k { CallsOfTwo(out, other, k); } else { CallsOfTwo(out, k, other); }
  }

  /** `serial_would_have_died` compares the whole round's calls with a limit that each session has to itself.
      It never misses a session that batching saved; and it names only such rounds, whatever the limit,
      exactly when at most one session makes any calls. */
  lemma {:induction false} WhenSerialMeansDied(events: seq<Event>)
    requires TurnBudget(events).Some?
    ensures forall m: nat :: SomeSessionOverruns(events, m) ==> HeadroomOf(events, m).value.serialWouldHaveDied
    ensures (forall m: nat :: HeadroomOf(events, m).value.serialWouldHaveDied ==> SomeSessionOverruns(events, m))
       <==> OneWorks(Sessions(events))
  {
    var out := Sessions(events);
    forall m: nat ensures SomeSessionOverruns(events, m) ==> HeadroomOf(events, m).value.serialWouldHaveDied {
      OverrunIsCounted(out, m);
    }
    if OneWorks(out) {
      OneWorksTotal(out);
      var k :| 0 <= k < |out| && out[k].toolCalls == TotalCalls(out);
      assert out[k] in out;
    } else {
      var m := TwoWorkMisleads(out);
      assert HeadroomOf(events, m).value.serialWouldHaveDied && !SomeSessionOverruns(events, m);
    }
  }

  lemma {:induction false} WalkAdd(events: seq<Event>, e: Event)
    ensures WalkOver(events + [e]) == Step(WalkOver(events), e)
  {
    assert (events + [e])[..|events|] == events;
  }

  /** A message of the main loop with one tool use. */
  function OneCall(id: string): Event {
    Assistant(false, Some(id), 1, None)
  }

  function OneCallSession(a: string, b: string): Session {
    Session(2, 2, None, None, None, {Some(a), Some(b)}, [])
  }

  lemma {:induction false} OneCallReport(a: string, b: string)
    requires a != b
    ensures ReportOf(OneCallSession(a, b)) == Report(2, 2, 2, None, None, None, [], true)
  {
    assert {Some(a), Some(b)} - {Some(a)} == {Some(b)};
  }

  /** A round of two sessions, two unbatched calls each. */
  const EXAMPLE := [OneCall("a"), OneCall("b"), Init(None), OneCall("c"), OneCall("d")]

  lemma {:induction false} TwoCalls(w: Walk, a: string, b: string)
    requires !w.closed && (w.cur.None? || w.cur == Some(BLANK))
    ensures Step(Step(w, OneCall(a)), OneCall(b)) == Walk(w.done, Some(OneCallSession(a, b)), false)
  {
    var s := Absorb(Absorb(BLANK, OneCall(a)), OneCall(b));
    assert s.ids == {Some(a), Some(b)};
    assert s == OneCallSession(a, b);
  }

  lemma {:induction false} WalkAddTwo(events: seq<Event>, e: Event, f: Event)
    ensures WalkOver(events + [e, f]) == Step(Step(WalkOver(events), e), f)
  {
    assert events + [e, f] == (events + [e]) + [f];
    WalkAdd(events, e);
    WalkAdd(events + [e], f);
  }

  lemma {:induction false} ExampleSessions()
    ensures AllOf(WalkOver(EXAMPLE)) == [OneCallSession("a", "b"), OneCallSession("c", "d")]
  {
    var first := [OneCall("a"), OneCall("b")];
    WalkAddTwo([], OneCall("a"), OneCall("b"));
    assert [] + first == first;
    TwoCalls(WalkOver([]), "a", "b");
    WalkAdd(first, Init(None));
    TwoCalls(WalkOver(first + [Init(None)]), "c", "d");
    WalkAddTwo(first + [Init(None)], OneCall("c"), OneCall("d"));
    assert first + [Init(None)] + [OneCall("c"), OneCall("d")] == EXAMPLE;
  }

  /** With a limit of 3 it is said to have died without batching, although nothing in it was batched. */
  lemma {:induction false} DiedWithoutBatching()
    ensures var h := HeadroomOf(EXAMPLE, 3);
            h.Some? && h.value.serialWouldHaveDied && h.value.turnsSaved == 0 && !SomeSessionOverruns(EXAMPLE, 3)
  {
    ExampleSessions();
    var s, t := OneCallSession("a", "b"), OneCallSession("c", "d");
    OneCallReport("a", "b");
    OneCallReport("c", "d");
    var out := [ReportOf(s), ReportOf(t)];
    TwoReports(s, t);
    assert Sessions(EXAMPLE) == out;
    assert out[..1] == [ReportOf(s)] && [ReportOf(s)][..0] == [];
    assert TotalCalls(out) == 4 && TotalTurns(out) == 4;
  }

  lemma {:induction false} TwoReports(s: Session, t: Session)
    requires Kept(s) && Kept(t)
    ensures Reports([s, t]) == [ReportOf(s), ReportOf(t)]
  {
    ReportsAdd([], s);
    ReportsAdd([s], t);
    assert [] + [s] == [s] && [s] + [t] == [s, t];
  }

  lemma {:induction false} ReportsAdd(sessions: seq<Session>, s: Session)
    requires Kept(s)
    ensures Reports(sessions + [s]) == Reports(sessions) + [ReportOf(s)]
  {
    assert (sessions + [s])[..|sessions|] == sessions;
  }

  // ------------------------------------------------------------------ when there is a budget at all

  /** The first object from event `i` on. */
  function NextObject(events: seq<Event>, i: nat): Option<Event>
    decreases |events| - i
  {
    if i >= |events| then None
    else if Object(events[i]) then Some(events[i])
    else NextObject(events, i + 1)
  }

  /** A message, or the last of a run of results, naming its outcome. */
  predicate Tells(events: seq<Event>, i: nat) {
    i < |events| &&
    (|| events[i].Assistant?
     || (events[i].Result? && events[i].subtype.Some?
         && (NextObject(events, i + 1).Some? ==> !NextObject(events, i + 1).value.Result?)))
  }

  lemma {:induction false} NextObjectAdd(events: seq<Event>, e: Event, i: nat)
    requires i <= |events|
    ensures NextObject(events + [e], i)
         == if NextObject(events, i).Some? then NextObject(events, i) else if Object(e) then Some(e) else None
    decreases |events| - i
  {
    if i < |events| {
      assert (events + [e])[i] == events[i];
      NextObjectAdd(events, e, i + 1);
    } else {
      assert (events + [e])[i] == e && NextObject(events + [e], i + 1) == None;
    }
  }

  /** Something told, and followed by another object if it is a result. */
  ghost predicate Told(events: seq<Event>) {
    exists i: nat :: Tells(events, i) && (events[i].Assistant? || NextObject(events, i + 1).Some?)
  }

  /** The last object is a result that names its outcome. */
  ghost predicate Telling(events: seq<Event>) {
    exists i: nat :: Tells(events, i) && events[i].Result? && NextObject(events, i + 1).None?
  }

  lemma {:induction false} ToldAdd(events: seq<Event>, e: Event)
    ensures Told(events + [e]) <==> Told(events) || e.Assistant? || (Telling(events) && Object(e) && !e.Result?)
  {
    var all := events + [e];
    forall i | 0 <= i < |events| ensures all[i] == events[i] {
      NextObjectAdd(events, e, i + 1);
    }
    assert all[|events|] == e && NextObject(all, |events| + 1) == None;
    if i: nat :| Tells(events, i) && (events[i].Assistant? || NextObject(events, i + 1).Some?) {
      NextObjectAdd(events, e, i + 1);
      assert Tells(all, i);
    }
    if Telling(events) && Object(e) && !e.Result? {
      var i: nat :| Tells(events, i) && events[i].Result? && NextObject(events, i + 1).None?;
      NextObjectAdd(events, e, i + 1);
      assert Tells(all, i);
    }
    if e.Assistant? { assert Tells(all, |events|); }
    if i: nat :| Tells(all, i) && (all[i].Assistant? || NextObject(all, i + 1).Some?) {
      if i < |events| {
        NextObjectAdd(events, e, i + 1);
        assert Tells(events, i);
      }
    }
  }

  lemma {:induction false} TellingAdd(events: seq<Event>, e: Event)
    ensures Telling(events + [e]) <==> if Object(e) then e.Result? && e.subtype.Some? else Telling(events)
  {
    var all := events + [e];
    assert all[|events|] == e && NextObject(all, |events| + 1) == None;
    if e.Result? && e.subtype.Some? { assert Tells(all, |events|); }
    if i: nat :| Tells(events, i) && events[i].Result? && NextObject(events, i + 1).None? {
      NextObjectAdd(events, e, i + 1);
      if !Object(e) { assert all[i] == events[i] && Tells(all, i); }
    }
    if i: nat :| Tells(all, i) && all[i].Result? && NextObject(all, i + 1).None? {
      if i < |events| {
        NextObjectAdd(events, e, i + 1);
        assert Tells(events, i);
      }
    }
  }

  ghost predicate AnyKeptIn(sessions: seq<Session>) {
    exists s :: s in sessions && Kept(s)
  }

  /** What the walk has kept so far is what has been told. */
  ghost predicate Heard(w: Walk, told: bool, telling: bool) {
    && (w.cur.None? ==> w.done == [] && !w.closed && !told && !telling)
    && (w.cur.Some? ==> && (told <==> AnyKeptIn(w.done) || w.cur.value.blocks > 0)
                        && (telling <==> w.closed && w.cur.value.subtype.Some?)
                        && (!w.closed ==> w.cur.value.subtype.None?))
  }

  lemma {:induction false} KeptAdd(sessions: seq<Session>, s: Session)
    ensures AnyKeptIn(sessions + [s]) <==> AnyKeptIn(sessions) || Kept(s)
  {
    if x :| x in sessions && Kept(x) { assert x in sessions + [s]; }
    if Kept(s) { assert s in sessions + [s]; }
  }

  lemma {:induction false} HeardStep(w: Walk, e: Event, told: bool, telling: bool)
    requires Heard(w, told, telling)
    ensures Heard(Step(w, e), told || e.Assistant? || (telling && Object(e) && !e.Result?),
                  if Object(e) then e.Result? && e.subtype.Some? else telling)
  {
    if w.cur.Some? { KeptAdd(w.done, w.cur.value); }
  }

  lemma {:induction false} WalkHears(events: seq<Event>)
    ensures Heard(WalkOver(events), Told(events), Telling(events))
  {
    if events != [] {
      var n := |events| - 1;
      assert events == events[..n] + [events[n]];
      WalkHears(events[..n]);
      HeardStep(WalkOver(events[..n]), events[n], Told(events[..n]), Telling(events[..n]));
      ToldAdd(events[..n], events[n]);
      TellingAdd(events[..n], events[n]);
    }
  }

  /** A log has a budget exactly when it has an assistant message, or a result that names its outcome and
      is not directly followed by another result. */
  lemma {:induction false} BudgetExists(events: seq<Event>)
    ensures TurnBudget(events).Some? <==> exists i: nat :: Tells(events, i)
  {
    var w := WalkOver(events);
    AnyKept(AllOf(w));
    WalkHears(events);
    if w.cur.Some? { KeptAdd(w.done, w.cur.value); }
  }

  lemma {:induction false} AnyKept(sessions: seq<Session>)
    ensures Reports(sessions) != [] <==> AnyKeptIn(sessions)
  {
    if sessions != [] {
      var n := |sessions| - 1;
      AnyKept(sessions[..n]);
      assert sessions == sessions[..n] + [sessions[n]] && sessions[n] in sessions;
    }
  }
}
