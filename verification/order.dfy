/** Sorting as Python's `sorted` does it on the distinct keys of a set or a dict. */
module Order {

  /** `lt` is a strict total order: exactly what makes a sort deterministic. */
  ghost predicate StrictTotal<T(!new)>(lt: (T, T) -> bool) {
    && (forall x :: !lt(x, x))
    && (forall x, y :: x == y || lt(x, y) || lt(y, x))
    && (forall x, y, z :: lt(x, y) && lt(y, z) ==> lt(x, z))
  }

  ghost predicate Ascending<T>(ks: seq<T>, lt: (T, T) -> bool) {
    forall i, j {:trigger lt(ks[i], ks[j])} | 0 <= i < j < |ks| :: lt(ks[i], ks[j])
  }

  lemma {:induction false} InOrder<T>(ks: seq<T>, lt: (T, T) -> bool, i: nat, j: nat)
    requires Ascending(ks, lt) && i < |ks| && j < |ks|
    ensures i < j ==> lt(ks[i], ks[j])
  {
  }

  ghost predicate IsLeast<T>(m: T, s: set<T>, lt: (T, T) -> bool) {
    m in s && forall x | x in s :: x == m || lt(m, x)
  }

  lemma {:induction false} LeastExists<T(!new)>(s: set<T>, lt: (T, T) -> bool)
    requires s != {} && StrictTotal(lt)
    ensures exists m :: IsLeast(m, s, lt)
  {
    var m :| m in s;
    if s == {m} {
      assert IsLeast(m, s, lt);
    } else {
      assert !(s <= {m});
      var x :| x in s && x != m;
      assert x in s - {m};
      LeastExists(s - {m}, lt);
      var n :| IsLeast(n, s - {m}, lt);
      assert IsLeast(if lt(n, m) then n else m, s, lt);
    }
  }

  function Least<T(==,!new)>(s: set<T>, lt: (T, T) -> bool): (m: T)
    requires s != {} && StrictTotal(lt)
    ensures IsLeast(m, s, lt)
  {
    LeastExists(s, lt);
    assert exists m :: m in s && IsLeast(m, s, lt);
    var m :| m in s && forall x | x in s :: x == m || lt(m, x);
    m
  }

  /** The elements of `s` from least to greatest. */
  function SortedBy<T(==,!new)>(s: set<T>, lt: (T, T) -> bool): (ks: seq<T>)
    requires StrictTotal(lt)
    ensures Ascending(ks, lt) && |ks| == |s|
    ensures forall k :: k in ks <==> k in s
  {
    if s == {} then [] else
      var m := Least(s, lt);
      [m] + SortedBy(s - {m}, lt)
  }

  /** Python's order on `str`: code point by code point, a proper prefix first. */
  predicate Less(a: string, b: string) {
    |b| > 0 && (|a| == 0 || a[0] < b[0] || (a[0] == b[0] && Less(a[1..], b[1..])))
  }

  lemma {:induction false} LessTrichotomy(a: string, b: string)
    ensures !Less(a, a)
    ensures a == b || Less(a, b) || Less(b, a)
  {
    if |a| > 0 {
      LessTrichotomy(a[1..], if |b| > 0 then b[1..] else b);
      if |b| > 0 && a[0] == b[0] && a[1..] == b[1..] {
        assert a == [a[0]] + a[1..] && b == [b[0]] + b[1..];
      }
    }
  }

  lemma {:induction false} LessTransitive(a: string, b: string, c: string)
    requires Less(a, b) && Less(b, c)
    ensures Less(a, c)
  {
    if |a| > 0 && a[0] == b[0] && b[0] == c[0] {
      LessTransitive(a[1..], b[1..], c[1..]);
    }
  }

  lemma {:induction false} LessIsStrictTotal()
    ensures StrictTotal(Less)
  {
    forall x: string, y: string ensures !Less(x, x) && (x == y || Less(x, y) || Less(y, x)) {
      LessTrichotomy(x, y);
    }
    forall x: string, y: string, z: string | Less(x, y) && Less(y, z) ensures Less(x, z) {
      LessTransitive(x, y, z);
    }
  }

  /** `sorted(s)` for a set of strings. */
  function Sorted(s: set<string>): (ks: seq<string>)
    ensures Ascending(ks, Less) && |ks| == |s|
    ensures forall k :: k in ks <==> k in s
  {
    LessIsStrictTotal();
    SortedBy(s, Less)
  }

  predicate IntLess(a: int, b: int) {
    a < b
  }

  /** `sorted(s)` for a set of integers. */
  function SortedInts(s: set<int>): (ks: seq<int>)
    ensures Ascending(ks, IntLess) && |ks| == |s|
    ensures forall k :: k in ks <==> k in s
  {
    SortedBy(s, IntLess)
  }

  lemma {:induction false} EmptyOrNot<T>(s: seq<T>)
    ensures s == [] || exists x :: x in s
  {
    if s != [] { assert s[0] in s; }
  }

  /** An ascending sequence is determined by its elements. */
  lemma {:induction false} AscendingUnique<T(!new)>(a: seq<T>, b: seq<T>, lt: (T, T) -> bool)
    requires StrictTotal(lt) && Ascending(a, lt) && Ascending(b, lt) && forall x :: x in a <==> x in b
    ensures a == b
  {
    if a == [] {
      EmptyOrNot(b);
    } else {
      assert a[0] in b && b != [] && b[0] in a;
      SmallestFirst(a, lt, b[0]);
      SmallestFirst(b, lt, a[0]);
      assert a[0] == b[0];
      Rest(a, lt);
      Rest(b, lt);
      AscendingUnique(a[1..], b[1..], lt);
      assert a == [a[0]] + a[1..] && b == [b[0]] + b[1..];
    }
  }

  lemma {:induction false} SmallestFirst<T>(a: seq<T>, lt: (T, T) -> bool, x: T)
    requires Ascending(a, lt) && x in a
    ensures a[0] == x || lt(a[0], x)
  {
    var i :| 0 <= i < |a| && a[i] == x;
    if i > 0 { InOrder(a, lt, 0, i); }
  }

  lemma {:induction false} Rest<T(!new)>(a: seq<T>, lt: (T, T) -> bool)
    requires StrictTotal(lt) && Ascending(a, lt) && a != []
    ensures Ascending(a[1..], lt) && forall x :: x in a[1..] <==> x in a && x != a[0]
  {
    forall i, j | 0 <= i < j < |a| - 1 ensures lt(a[1..][i], a[1..][j]) {
      InOrder(a, lt, i + 1, j + 1);
    }
    forall x ensures x in a[1..] <==> x in a && x != a[0] {
      if x in a[1..] {
        var i :| 0 <= i < |a| - 1 && a[1..][i] == x;
        InOrder(a, lt, 0, i + 1);
      }
      if x in a && x != a[0] {
        var i :| 0 <= i < |a| && a[i] == x;
        assert a[1..][i - 1] == x;
      }
    }
  }

  // ------------------------------------------------------------------ sorting a list by a key

  /** Puts `x` after every element it does not precede. */
  function Insert<T>(s: seq<T>, x: T, before: (T, T) -> bool): seq<T> {
    if s == [] then [x]
    else
      var n := |s| - 1;
      if before(x, s[n]) then Insert(s[..n], x, before) + [s[n]] else s + [x]
  }

  /** `list.sort`: stable. */
  function Arrange<T>(s: seq<T>, before: (T, T) -> bool): seq<T> {
    if s == [] then [] else Insert(Arrange(s[..|s| - 1], before), s[|s| - 1], before)
  }

  function Map<S, T>(s: seq<S>, f: S -> T): (r: seq<T>)
    ensures |r| == |s|
  {
    if s == [] then [] else Map(s[..|s| - 1], f) + [f(s[|s| - 1])]
  }

  lemma {:induction false} InsertIsPermutation<T>(s: seq<T>, x: T, before: (T, T) -> bool)
    ensures multiset(Insert(s, x, before)) == multiset(s) + multiset{x}
  {
    if s != [] {
      InsertIsPermutation(s[..|s| - 1], x, before);
      LastInMultiset(s);
    }
  }

  lemma {:induction false} LastInMultiset<T>(s: seq<T>)
    requires s != []
    ensures multiset(s) == multiset(s[..|s| - 1]) + multiset{s[|s| - 1]}
  {
    assert s == s[..|s| - 1] + [s[|s| - 1]];
  }

  lemma {:induction false} ArrangeIsPermutation<T>(s: seq<T>, before: (T, T) -> bool)
    ensures multiset(Arrange(s, before)) == multiset(s)
  {
    if s != [] {
      ArrangeIsPermutation(s[..|s| - 1], before);
      InsertIsPermutation(Arrange(s[..|s| - 1], before), s[|s| - 1], before);
      LastInMultiset(s);
    }
  }

  /** What a comparison must satisfy for a sort by it to make sense: a strict weak order. */
  ghost predicate StrictWeak<T(!new)>(before: (T, T) -> bool) {
    && (forall x, y :: before(x, y) ==> !before(y, x))
    && (forall x, y, z :: before(x, z) ==> before(x, y) || before(y, z))
  }

  ghost predicate Arranged<T>(s: seq<T>, before: (T, T) -> bool) {
    forall i, j {:trigger before(s[j], s[i])} | 0 <= i < j < |s| :: !before(s[j], s[i])
  }

  lemma {:induction false} InsertKeepsArranged<T(!new)>(s: seq<T>, x: T, before: (T, T) -> bool)
    requires StrictWeak(before) && Arranged(s, before)
    ensures Arranged(Insert(s, x, before), before)
    ensures forall y :: y in Insert(s, x, before) <==> y in s || y == x
  {
    if s == [] { return; }
    var n := |s| - 1;
    var r := Insert(s, x, before);
    assert s == s[..n] + [s[n]];
    if before(x, s[n]) {
      assert Arranged(s[..n], before) by {
        forall i, j | 0 <= i < j < n ensures !before(s[..n][j], s[..n][i]) { assert !before(s[j], s[i]); }
      }
      InsertKeepsArranged(s[..n], x, before);
      var q := Insert(s[..n], x, before);
      forall i, j | 0 <= i < j < |r| ensures !before(r[j], r[i]) {
        if j < |q| {
          assert !before(q[j], q[i]);
        } else if q[i] != x {
          assert q[i] in q;
          var k :| 0 <= k < n && s[k] == q[i];
          assert !before(s[n], s[k]);
        }
      }
    } else {
      forall i, j | 0 <= i < j < |r| ensures !before(r[j], r[i]) {
        if j < |s| { assert !before(s[j], s[i]); }
        else if i < n { assert !before(s[n], s[i]); }
      }
    }
  }

  /** `list.sort` leaves no element before one it should follow. */
  lemma {:induction false} ArrangeIsArranged<T(!new)>(s: seq<T>, before: (T, T) -> bool)
    requires StrictWeak(before)
    ensures Arranged(Arrange(s, before), before)
  {
    if s != [] {
      ArrangeIsArranged(s[..|s| - 1], before);
      InsertKeepsArranged(Arrange(s[..|s| - 1], before), s[|s| - 1], before);
    }
  }

  /** Forgetting something the order does not look at commutes with inserting. */
  lemma {:induction false} MapInsert<T(!new)>(s: seq<T>, x: T, before: (T, T) -> bool, f: T -> T)
    requires forall a, b :: before(f(a), f(b)) == before(a, b)
    ensures Map(Insert(s, x, before), f) == Insert(Map(s, f), f(x), before)
  {
    if s != [] {
      var n := |s| - 1;
      assert Map(s, f)[..n] == Map(s[..n], f);
      if before(x, s[n]) {
        MapInsert(s[..n], x, before, f);
        assert (Insert(s[..n], x, before) + [s[n]])[..|Insert(s[..n], x, before)|] == Insert(s[..n], x, before);
      } else {
        assert (s + [x])[..|s|] == s;
      }
    }
  }

  lemma {:induction false} MapArrange<T(!new)>(s: seq<T>, before: (T, T) -> bool, f: T -> T)
    requires forall a, b :: before(f(a), f(b)) == before(a, b)
    ensures Map(Arrange(s, before), f) == Arrange(Map(s, f), before)
  {
    if s != [] {
      var n := |s| - 1;
      MapArrange(s[..n], before, f);
      MapInsert(Arrange(s[..n], before), s[n], before, f);
      assert Map(s, f)[..n] == Map(s[..n], f);
    }
  }
}
