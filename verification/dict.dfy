/** Python's insertion-ordered `dict` with string keys, as the sequence of its items. */
module Dict {
  import opened Order
  import opened Text

  type Dict<V> = seq<(string, V)>

  function Keys<V>(d: Dict<V>): set<string> {
    if d == [] then {} else Keys(d[..|d| - 1]) + {d[|d| - 1].0}
  }

  /** No key twice: what every dict satisfies. */
  predicate IsDict<V>(d: Dict<V>) {
    d == [] || (IsDict(d[..|d| - 1]) && d[|d| - 1].0 !in Keys(d[..|d| - 1]))
  }

  function Get<V>(d: Dict<V>, k: string): (v: Option<V>)
    ensures v.Some? <==> k in Keys(d)
  {
    if d == [] then None
    else if d[|d| - 1].0 == k then Some(d[|d| - 1].1)
    else Get(d[..|d| - 1], k)
  }

  lemma {:induction false} KeysConcat<V>(a: Dict<V>, b: Dict<V>)
    ensures Keys(a + b) == Keys(a) + Keys(b)
  {
    if b == [] {
      assert a + b == a;
    } else {
      var n := |b| - 1;
      assert (a + b)[..|a + b| - 1] == a + b[..n];
      KeysConcat(a, b[..n]);
    }
  }

  /** Concatenating dicts with disjoint keys gives a dict, and looks up in whichever has the key. */
  lemma {:induction false} ConcatIsDict<V>(a: Dict<V>, b: Dict<V>)
    requires IsDict(a) && IsDict(b) && Keys(a) !! Keys(b)
    ensures IsDict(a + b)
    ensures forall k :: Get(a + b, k) == if k in Keys(b) then Get(b, k) else Get(a, k)
  {
    if b == [] {
      assert a + b == a;
    } else {
      var n := |b| - 1;
      assert (a + b)[..|a + b| - 1] == a + b[..n];
      KeysConcat(a, b[..n]);
      ConcatIsDict(a, b[..n]);
    }
  }

  /** The items whose keys lie in `ks`, in order. */
  function Only<V>(d: Dict<V>, ks: set<string>): Dict<V> {
    if d == [] then []
    else
      var n := |d| - 1;
      Only(d[..n], ks) + if d[n].0 in ks then [d[n]] else []
  }

  lemma {:induction false} OnlyConcat<V>(a: Dict<V>, b: Dict<V>, ks: set<string>)
    ensures Only(a + b, ks) == Only(a, ks) + Only(b, ks)
  {
    if b == [] {
      assert a + b == a;
    } else {
      var n := |b| - 1;
      assert (a + b)[..|a + b| - 1] == a + b[..n];
      OnlyConcat(a, b[..n], ks);
    }
  }

  lemma {:induction false} OnlyAll<V>(d: Dict<V>, ks: set<string>)
    ensures Keys(d) <= ks ==> Only(d, ks) == d
    ensures Keys(d) !! ks ==> Only(d, ks) == []
  {
    if d != [] {
      var n := |d| - 1;
      OnlyAll(d[..n], ks);
      assert d == d[..n] + [d[n]];
    }
  }

  /** Some of the items of a map, in the order of their keys. */
  function Items<V>(m: map<string, V>, ks: seq<string>): Dict<V>
    requires forall k | k in ks :: k in m
  {
    if ks == [] then []
    else
      var n := |ks| - 1;
      Items(m, ks[..n]) + [(ks[n], m[ks[n]])]
  }

  lemma {:induction false} ItemsAreDict<V>(m: map<string, V>, ks: seq<string>)
    requires Ascending(ks, Less) && forall k | k in ks :: k in m
    ensures IsDict(Items(m, ks)) && (forall k :: k in Keys(Items(m, ks)) <==> k in ks)
    ensures forall k | k in ks :: Get(Items(m, ks), k) == Some(m[k])
  {
    if ks != [] {
      var n := |ks| - 1;
      PrefixAscends(ks);
      ItemsAreDict(m, ks[..n]);
      var front, last := Items(m, ks[..n]), (ks[n], m[ks[n]]);
      assert (front + [last])[..|front|] == front;
      assert ks == ks[..n] + [ks[n]];
    }
  }

  /** All but the last of ascending keys ascend, and do not hold the last. */
  lemma {:induction false} PrefixAscends(ks: seq<string>)
    requires Ascending(ks, Less) && ks != []
    ensures Ascending(ks[..|ks| - 1], Less) && ks[|ks| - 1] !in ks[..|ks| - 1]
  {
    var n := |ks| - 1;
    forall i, j | 0 <= i < j < n ensures Less(ks[..n][i], ks[..n][j]) {
      InOrder(ks, Less, i, j);
    }
    forall i | 0 <= i < n ensures ks[i] != ks[n] {
      InOrder(ks, Less, i, n);
      LessTrichotomy(ks[i], ks[i]);
    }
  }

  lemma {:induction false} ItemsLength<V>(m: map<string, V>, ks: seq<string>)
    requires forall k | k in ks :: k in m
    ensures |Items(m, ks)| == |ks|
  {
    if ks != [] { ItemsLength(m, ks[..|ks| - 1]); }
  }
}
