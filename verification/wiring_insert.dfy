/** harness/wiring_audit.py, `_insert_entries`: adding registry entries without reordering one. */
module WiringInsert {
  import opened Order
  import opened Seqs
  import opened Text
  import opened Dict

  /** Where a new key goes: the index of the first existing key that sorts after it. */
  function Gap<V>(existing: Dict<V>, k: string): (g: nat)
    ensures g <= |existing|
  {
    if existing == [] then 0
    else
      var n := |existing| - 1;
      var g := Gap(existing[..n], k);
      if g < n || Less(k, existing[n].0) then g else n + 1
  }

  lemma {:induction false} GapIsFirstLarger<V>(existing: Dict<V>, k: string)
    ensures var g := Gap(existing, k);
            && (g < |existing| ==> Less(k, existing[g].0))
            && forall m | 0 <= m < g :: !Less(k, existing[m].0)
  {
    if existing != [] {
      GapIsFirstLarger(existing[..|existing| - 1], k);
    }
  }

  /** The new keys that belong in one gap. */
  function InGap<V>(existing: Dict<V>, added: map<string, V>, j: nat): set<string> {
    set k | k in added && Gap(existing, k) == j
  }

  function GapItems<V>(existing: Dict<V>, added: map<string, V>, j: nat): Dict<V> {
    Items(added, Sorted(InGap(existing, added, j)))
  }

  /** The new entries, gap by gap. */
  function Gaps<V>(existing: Dict<V>, added: map<string, V>): (gaps: seq<Dict<V>>)
    ensures |gaps| == |existing| + 1
  {
    seq(|existing| + 1, j requires 0 <= j => GapItems(existing, added, j))
  }

  /** The first `j` existing entries, each with the gap before it. */
  function Weave<V>(existing: Dict<V>, gaps: seq<Dict<V>>, j: nat): Dict<V>
    requires j <= |existing| < |gaps|
  {
    if j == 0 then [] else Weave(existing, gaps, j - 1) + gaps[j - 1] + [existing[j - 1]]
  }

  function WeaveAll<V>(existing: Dict<V>, gaps: seq<Dict<V>>): Dict<V>
    requires |gaps| == |existing| + 1
  {
    Weave(existing, gaps, |existing|) + gaps[|existing|]
  }

  function Inserted<V>(existing: Dict<V>, added: map<string, V>): Dict<V> {
    WeaveAll(existing, Gaps(existing, added))
  }

  /** The pending keys that sort before an existing one. */
  function Smaller<V>(pending: map<string, V>, key: string): set<string> {
    set k | k in pending && Less(k, key)
  }

  function NotYet<V>(existing: Dict<V>, added: map<string, V>, j: nat): map<string, V> {
    map k | k in added && Gap(existing, k) >= j :: added[k]
  }

  /** Moves the items of some keys, in order, from the pending ones to the end of the output. */
  method MoveItems<V>(ks: seq<string>, pending0: map<string, V>, out0: Dict<V>) returns (pending: map<string, V>,
      out: Dict<V>)
    requires Ascending(ks, Less) && forall k | k in ks :: k in pending0
    ensures out == out0 + Items(pending0, ks)
    ensures pending == pending0 - Elems(ks)
  {
    pending, out := pending0, out0;
    for i := 0 to |ks|
      invariant out == out0 + Items(pending0, ks[..i])
      invariant pending == pending0 - Elems(ks[..i])
    {
      TakeStep(ks, i);
      forall j | 0 <= j < i ensures ks[j] != ks[i] {
        InOrder(ks, Less, j, i);
        LessTrichotomy(ks[i], ks[i]);
      }
      assert ks[i] in pending;
      AppendAssoc(out0, Items(pending0, ks[..i]), (ks[i], pending0[ks[i]]));
      out := out + [(ks[i], pending[ks[i]])];
      pending := pending - {ks[i]};
      ElemsStep(ks, i);
    }
    TakeAll(ks);
  }

  lemma {:induction false} ItemsOfSubmap<V>(small: map<string, V>, big: map<string, V>, ks: seq<string>)
    requires forall k | k in ks :: k in small && k in big && small[k] == big[k]
    ensures Items(small, ks) == Items(big, ks)
  {
    if ks != [] { ItemsOfSubmap(small, big, ks[..|ks| - 1]); }
  }

  lemma {:induction false} GapAtLeast<V>(existing: Dict<V>, k: string, j: nat)
    requires j < |existing| && Gap(existing, k) >= j
    ensures Gap(existing, k) == j <==> Less(k, existing[j].0)
  {
    GapIsFirstLarger(existing, k);
  }

  /** The keys popped before the j-th existing entry; at the end, all that are left. */
  function Popped<V>(existing: Dict<V>, pending: map<string, V>, j: nat): set<string> {
    if j < |existing| then Smaller(pending, existing[j].0) else pending.Keys
  }

  lemma {:induction false} PoppedKeys<V>(existing: Dict<V>, added: map<string, V>, j: nat)
    requires j <= |existing|
    ensures Popped(existing, NotYet(existing, added, j), j) == InGap(existing, added, j)
  {
    forall k | k in NotYet(existing, added, j)
      ensures k in InGap(existing, added, j) <==> j == |existing| || Less(k, existing[j].0)
    {
      if j < |existing| { GapAtLeast(existing, k, j); }
    }
  }

  /** What is popped is what belongs in the gap. */
  lemma {:induction false} PoppedIsGap<V>(existing: Dict<V>, added: map<string, V>, j: nat)
    requires j <= |existing|
    ensures var pending := NotYet(existing, added, j);
            var ks := Sorted(Popped(existing, pending, j));
            && (forall k | k in ks :: k in pending)
            && Items(pending, ks) == Gaps(existing, added)[j]
            && pending - Elems(ks) == NotYet(existing, added, j + 1)
  {
    var pending := NotYet(existing, added, j);
    PoppedKeys(existing, added, j);
    var ks := Sorted(InGap(existing, added, j));
    assert Elems(ks) == InGap(existing, added, j);
    ItemsOfSubmap(pending, added, ks);
    assert (pending - Elems(ks)).Keys == NotYet(existing, added, j + 1).Keys;
  }

  /** The loop over the existing entries, popping what sorts before each. */
  method InsertEntries<V>(existing: Dict<V>, added: map<string, V>) returns (out: Dict<V>)
    requires Keys(existing) !! added.Keys
    ensures out == Inserted(existing, added)
  {
    ghost var gaps := Gaps(existing, added);
    var pending := added;
    out := [];
    for j := 0 to |existing|
      invariant pending == NotYet(existing, added, j)
      invariant out == Weave(existing, gaps, j)
    {
      var ks := Sorted(Smaller(pending, existing[j].0));
      PoppedIsGap(existing, added, j);
      pending, out := MoveItems(ks, pending, out);
      out := out + [existing[j]];
    }
    var ks := Sorted(pending.Keys);
    PoppedIsGap(existing, added, |existing|);
    pending, out := MoveItems(ks, pending, out);
  }

  // ------------------------------------------------------------------ weaving, whatever the gaps

  ghost predicate Foreign<V>(gaps: seq<Dict<V>>, ks: set<string>) {
    forall i | 0 <= i < |gaps| :: Keys(gaps[i]) !! ks
  }

  lemma {:induction false} ItemKey<V>(d: Dict<V>, i: nat)
    requires i < |d|
    ensures d[i].0 in Keys(d)
  {
    if i < |d| - 1 { ItemKey(d[..|d| - 1], i); }
  }

  lemma {:induction false} KeepStep<V>(front: Dict<V>, gap: Dict<V>, e: (string, V), ks: set<string>)
    requires Keys(gap) !! ks && e.0 in ks
    ensures Only(front + gap + [e], ks) == Only(front, ks) + [e]
  {
    OnlyConcat(front, gap, ks);
    OnlyAll(gap, ks);
    assert (front + gap + [e])[..|front + gap|] == front + gap;
  }

  /** Weaving in foreign keys keeps the old entries, in order. */
  lemma {:induction false} WeaveKeeps<V>(existing: Dict<V>, gaps: seq<Dict<V>>, j: nat)
    requires j <= |existing| < |gaps| && Foreign(gaps, Keys(existing))
    ensures Only(Weave(existing, gaps, j), Keys(existing)) == existing[..j]
  {
    if j > 0 {
      WeaveKeeps(existing, gaps, j - 1);
      ItemKey(existing, j - 1);
      KeepStep(Weave(existing, gaps, j - 1), gaps[j - 1], existing[j - 1], Keys(existing));
      TakeStep(existing, j - 1);
    }
  }

  /** The gap before position `j`, and everything after it. */
  lemma {:induction false} WeaveSplits<V>(existing: Dict<V>, gaps: seq<Dict<V>>, j: nat) returns (rest: Dict<V>)
    requires j <= |existing| && |gaps| == |existing| + 1
    ensures WeaveAll(existing, gaps) == Weave(existing, gaps, j) + gaps[j] + rest
    decreases |existing| - j
  {
    if j == |existing| {
      rest := [];
    } else {
      var later := WeaveSplits(existing, gaps, j + 1);
      rest := [existing[j]] + gaps[j + 1] + later;
    }
  }

  /** How far apart the gaps' keys are, and what they hold. */
  ghost predicate GapsHold<V>(gaps: seq<Dict<V>>, home: map<string, nat>, added: map<string, V>) {
    && home.Keys == added.Keys
    && forall i {:trigger gaps[i]} | 0 <= i < |gaps| ::
         && IsDict(gaps[i]) && Keys(gaps[i]) == At(home, i)
         && (forall k | k in Keys(gaps[i]) :: Get(gaps[i], k) == Some(added[k]))
  }

  function At(home: map<string, nat>, i: int): set<string> {
    set k | k in home && home[k] == i
  }

  function Below(home: map<string, nat>, j: int): set<string> {
    set k | k in home && home[k] < j
  }

  lemma {:induction false} PrefixIsDict<V>(d: Dict<V>, j: nat)
    requires IsDict(d) && j <= |d|
    ensures IsDict(d[..j]) && Keys(d[..j]) <= Keys(d)
  {
    if j < |d| {
      PrefixIsDict(d[..|d| - 1], j);
      assert d[..|d| - 1][..j] == d[..j];
    } else {
      TakeAll(d);
    }
  }

  /** A dict, a gap and one entry, with no key in common, look up key by key. */
  lemma {:induction false} ThreeLookUp<V>(front: Dict<V>, gap: Dict<V>, e: (string, V))
    requires IsDict(front) && IsDict(gap) && Keys(front) !! Keys(gap) && e.0 !in Keys(front) + Keys(gap)
    ensures var p := front + gap + [e];
            && IsDict(p) && Keys(p) == Keys(front) + Keys(gap) + {e.0}
            && (forall k :: Get(p, k)
                            == if k == e.0 then Some(e.1) else if k in Keys(gap) then Get(gap, k) else Get(front, k))
  {
    ConcatIsDict(front, gap);
    KeysConcat(front, gap);
    assert (front + gap + [e])[..|front + gap|] == front + gap;
  }

  /** One step of the weave: the keys it gains. */
  lemma {:induction false} WeaveStep<V>(existing: Dict<V>, home: map<string, nat>, added: map<string, V>, j: nat)
    requires IsDict(existing) && home.Keys == added.Keys && Keys(existing) !! added.Keys && 0 < j <= |existing|
    ensures Below(home, j) == Below(home, j - 1) + At(home, j - 1) && Below(home, j - 1) !! At(home, j - 1)
    ensures Keys(existing[..j]) == Keys(existing[..j - 1]) + {existing[j - 1].0} <= Keys(existing)
    ensures existing[j - 1].0 !in Keys(existing[..j - 1]) + added.Keys
  {
    PrefixIsDict(existing, j);
    TakeStep(existing, j - 1);
  }

  lemma {:induction false} WeaveKeysStep<V>(existing: Dict<V>, gaps: seq<Dict<V>>, home: map<string, nat>,
      added: map<string, V>, j: nat)
    requires IsDict(existing) && Keys(existing) !! added.Keys && 0 < j <= |existing| < |gaps|
            && GapsHold(gaps, home, added)
    requires IsDict(Weave(existing, gaps, j - 1))
            && Keys(Weave(existing, gaps, j - 1)) == Keys(existing[..j - 1]) + Below(home, j - 1)
    ensures IsDict(Weave(existing, gaps, j)) && Keys(Weave(existing, gaps, j)) == Keys(existing[..j]) + Below(home, j)
  {
    WeaveStep(existing, home, added, j);
    assert IsDict(gaps[j - 1]) && Keys(gaps[j - 1]) == At(home, j - 1);
    ThreeLookUp(Weave(existing, gaps, j - 1), gaps[j - 1], existing[j - 1]);
  }

  lemma {:induction false} WeaveKeys<V>(existing: Dict<V>, gaps: seq<Dict<V>>, home: map<string, nat>,
      added: map<string, V>, j: nat)
    requires IsDict(existing) && Keys(existing) !! added.Keys && j <= |existing| < |gaps| && GapsHold(gaps, home, added)
    ensures var p := Weave(existing, gaps, j);
            IsDict(p) && Keys(p) == Keys(existing[..j]) + Below(home, j)
  {
    if j > 0 {
      WeaveKeys(existing, gaps, home, added, j - 1);
      WeaveKeysStep(existing, gaps, home, added, j);
    } else {
      assert Below(home, 0) == {};
    }
  }

  lemma {:induction false} WeaveGetStep<V>(existing: Dict<V>, gaps: seq<Dict<V>>, home: map<string, nat>,
      added: map<string, V>, j: nat, k: string)
    requires IsDict(existing) && Keys(existing) !! added.Keys && 0 < j <= |existing| < |gaps|
            && GapsHold(gaps, home, added)
    ensures Get(Weave(existing, gaps, j), k)
         == if k == existing[j - 1].0 then Some(existing[j - 1].1)
            else if k in added && home[k] == j - 1 then Some(added[k])
            else Get(Weave(existing, gaps, j - 1), k)
  {
    WeaveKeys(existing, gaps, home, added, j - 1);
    WeaveStep(existing, home, added, j);
    ThreeLookUp(Weave(existing, gaps, j - 1), gaps[j - 1], existing[j - 1]);
    assert k in Keys(gaps[j - 1]) <==> k in added && home[k] == j - 1;
  }

  lemma {:induction false} WeaveGet<V>(existing: Dict<V>, gaps: seq<Dict<V>>, home: map<string, nat>,
      added: map<string, V>, j: nat, k: string)
    requires IsDict(existing) && Keys(existing) !! added.Keys && j <= |existing| < |gaps| && GapsHold(gaps, home, added)
    ensures Get(Weave(existing, gaps, j), k)
         == if k in added then (if home[k] < j then Some(added[k]) else None) else Get(existing[..j], k)
  {
    if j > 0 {
      WeaveGet(existing, gaps, home, added, j - 1, k);
      WeaveGetStep(existing, gaps, home, added, j, k);
      WeaveStep(existing, home, added, j);
      TakeStep(existing, j - 1);
    }
  }

  // ------------------------------------------------------------------ what the result is

  function Homes<V>(existing: Dict<V>, added: map<string, V>): map<string, nat> {
    map k | k in added :: Gap(existing, k)
  }

  lemma {:induction false} GapsAre<V>(existing: Dict<V>, added: map<string, V>)
    ensures GapsHold(Gaps(existing, added), Homes(existing, added), added)
    ensures Keys(existing) !! added.Keys ==> Foreign(Gaps(existing, added), Keys(existing))
  {
    var gaps := Gaps(existing, added);
    forall j | 0 <= j < |gaps|
      ensures IsDict(gaps[j]) && Keys(gaps[j]) == At(Homes(existing, added), j)
      ensures forall k | k in Keys(gaps[j]) :: Get(gaps[j], k) == Some(added[k])
    {
      ItemsAreDict(added, Sorted(InGap(existing, added, j)));
    }
  }

  /** Existing entries keep their order and their values. */
  lemma {:induction false} InsertedKeepsExisting<V>(existing: Dict<V>, added: map<string, V>)
    requires Keys(existing) !! added.Keys
    ensures Only(Inserted(existing, added), Keys(existing)) == existing
  {
    var gaps, n := Gaps(existing, added), |existing|;
    GapsAre(existing, added);
    WeaveKeeps(existing, gaps, n);
    OnlyConcat(Weave(existing, gaps, n), gaps[n], Keys(existing));
    OnlyAll(gaps[n], Keys(existing));
    TakeAll(existing);
  }

  lemma {:induction false} TwoDicts<V>(front: Dict<V>, gap: Dict<V>, kept: set<string>, below: set<string>,
      at: set<string>)
    requires IsDict(front) && IsDict(gap) && Keys(front) == kept + below && Keys(gap) == at
    requires kept !! at && below !! at
    ensures IsDict(front + gap) && Keys(front + gap) == kept + (below + at)
  {
    ConcatIsDict(front, gap);
    KeysConcat(front, gap);
  }

  lemma {:induction false} HomesCover<V>(existing: Dict<V>, added: map<string, V>)
    ensures var home, n := Homes(existing, added), |existing|;
            Below(home, n) + At(home, n) == added.Keys && Below(home, n) !! At(home, n)
  {
  }

  /** Nothing else is in the result: its keys are the old ones and the new ones, once each. */
  lemma {:induction false} InsertedKeys<V>(existing: Dict<V>, added: map<string, V>)
    requires IsDict(existing) && Keys(existing) !! added.Keys
    ensures IsDict(Inserted(existing, added))
    ensures Keys(Inserted(existing, added)) == Keys(existing) + added.Keys
  {
    var gaps, n, home := Gaps(existing, added), |existing|, Homes(existing, added);
    GapsAre(existing, added);
    WeaveKeys(existing, gaps, home, added, n);
    TakeAll(existing);
    HomesCover(existing, added);
    TwoDicts(Weave(existing, gaps, n), gaps[n], Keys(existing), Below(home, n), At(home, n));
  }

  /** It looks up as the old dict with the new entries over it. */
  lemma {:induction false} InsertedGet<V>(existing: Dict<V>, added: map<string, V>, k: string)
    requires IsDict(existing) && Keys(existing) !! added.Keys
    ensures Get(Inserted(existing, added), k) == if k in added then Some(added[k]) else Get(existing, k)
  {
    var gaps, n, home := Gaps(existing, added), |existing|, Homes(existing, added);
    GapsAre(existing, added);
    WeaveKeys(existing, gaps, home, added, n);
    WeaveGet(existing, gaps, home, added, n, k);
    TakeAll(existing);
    ConcatIsDict(Weave(existing, gaps, n), gaps[n]);
    assert k in Keys(gaps[n]) <==> k in added && home[k] == n;
  }

  /** Every new key goes before the first existing key that sorts after it, and after all the others. */
  lemma {:induction false} InsertedBeforeFirstLarger<V>(existing: Dict<V>, added: map<string, V>, k: string)
    returns (front: Dict<V>, gap: Dict<V>, back: Dict<V>)
    requires IsDict(existing) && Keys(existing) !! added.Keys && k in added
    ensures Inserted(existing, added) == front + gap + back && Get(gap, k) == Some(added[k]) && Keys(gap) <= added.Keys
    ensures var g := Gap(existing, k);
            && Only(front, Keys(existing)) == existing[..g] && Only(back, Keys(existing)) == existing[g..]
            && (g < |existing| ==> Less(k, existing[g].0)) && forall m | 0 <= m < g :: !Less(k, existing[m].0)
  {
    var g, gaps, ks := Gap(existing, k), Gaps(existing, added), Keys(existing);
    GapIsFirstLarger(existing, k);
    GapsAre(existing, added);
    front, gap := Weave(existing, gaps, g), gaps[g];
    back := WeaveSplits(existing, gaps, g);
    WeaveKeeps(existing, gaps, g);
    InsertedKeepsExisting(existing, added);
    OnlyConcat(front + gap, back, ks);
    OnlyConcat(front, gap, ks);
    OnlyAll(gap, ks);
    assert existing == existing[..g] + Only(back, ks);
  }
}
