/** The few string operations the auditors perform on repo-relative paths. */
module Text {

  datatype Option<+T> = None | Some(value: T)

  predicate EndsWith(s: string, suffix: string) {
    |suffix| <= |s| && s[|s| - |suffix|..] == suffix
  }

  lemma {:induction false} EndsWithLast(s: string, suffix: string)
    requires suffix != ""
    ensures EndsWith(s, suffix) ==> s != "" && s[|s| - 1] == suffix[|suffix| - 1]
  {
    assert EndsWith(s, suffix) ==> s[|s| - |suffix|..][|suffix| - 1] == s[|s| - 1];
  }

  predicate StartsWith(s: string, prefix: string) {
    prefix <= s
  }

  /** Python's `s.split(c)`: always at least one part. */
  function Split(s: string, c: char): (parts: seq<string>)
    ensures |parts| > 0
    ensures c !in s ==> parts == [s]
  {
    if s == "" then [""]
    else
      var rest := Split(s[1..], c);
      assert [s[0]] + s[1..] == s;
      if s[0] == c then [""] + rest else [[s[0]] + rest[0]] + rest[1..]
  }

  lemma {:induction false} SplitAt(a: string, b: string, c: char)
    requires c !in a
    ensures Split(a + [c] + b, c) == [a] + Split(b, c)
  {
    var s := a + [c] + b;
    if a == "" {
      assert s[0] == c && s[1..] == b;
      SplitStep(s, c);
    } else {
      assert s[0] == a[0] && s[1..] == a[1..] + [c] + b;
      SplitAt(a[1..], b, c);
      SplitStep(s, c);
      assert [a[0]] + a[1..] == a;
    }
  }

  lemma {:induction false} SplitStep(s: string, c: char)
    requires s != ""
    ensures var rest := Split(s[1..], c);
            Split(s, c) == if s[0] == c then [""] + rest else [[s[0]] + rest[0]] + rest[1..]
  {
  }

  /** A character in front changes at most the first part. */
  lemma {:induction false} SplitInFront(x: char, s: string, c: char, part: string)
    requires part in Split(s, c)[1..]
    ensures part in Split([x] + s, c)[1..]
  {
    var t := [x] + s;
    assert t[0] == x && t[1..] == s;
    SplitStep(t, c);
    var rest := Split(s, c);
    if x == c {
      assert Split(t, c)[1..] == rest;
      assert rest == [rest[0]] + rest[1..];
    } else {
      assert Split(t, c)[1..] == rest[1..];
    }
  }

  /** What is a part of the end of a path is a part of the path, and not its first. */
  lemma {:induction false} SplitEnd(a: string, b: string, c: char, part: string)
    requires part in Split(b, c)
    ensures part in Split(a + [c] + b, c)[1..] && part in Split(a + [c] + b, c)
  {
    var s := a + [c] + b;
    if a == "" {
      assert s[0] == c && s[1..] == b;
      SplitStep(s, c);
      assert Split(s, c)[1..] == Split(b, c);
    } else {
      SplitEnd(a[1..], b, c, part);
      assert s == [a[0]] + (a[1..] + [c] + b);
      SplitInFront(a[0], a[1..] + [c] + b, c, part);
    }
    var parts := Split(s, c);
    assert parts == [parts[0]] + parts[1..];
  }

  /** The first part is what comes before the first `c`, or all there is. */
  lemma {:induction false} SplitHead(s: string, c: char)
    ensures var head := Split(s, c)[0];
            head <= s && c !in head && (|head| < |s| ==> s[|head|] == c)
  {
    if s != "" {
      SplitHead(s[1..], c);
      SplitStep(s, c);
      assert s == [s[0]] + s[1..];
    }
  }

  // ------------------------------------------------------------------ file:line pins

  /** `"%d" % n`. */
  function Decimal(n: nat): (s: string)
    ensures s != ""
  {
    var digit := [('0' as int + n % 10) as char];
    if n < 10 then digit else Decimal(n / 10) + digit
  }

  /** `str.isdigit`, over the ASCII digits. */
  predicate IsDigits(s: string) {
    s != "" && forall c | c in s :: '0' <= c <= '9'
  }

  function ParseInt(s: string): nat
    requires forall c | c in s :: '0' <= c <= '9'
  {
    if s == "" then 0
    else
      var n := |s| - 1;
      assert s[n] in s && forall c | c in s[..n] :: c in s;
      10 * ParseInt(s[..n]) + (s[n] as int - '0' as int)
  }

  lemma {:induction false} DecimalParses(n: nat)
    ensures IsDigits(Decimal(n)) && ':' !in Decimal(n)
    ensures ParseInt(Decimal(n)) == n
  {
    if n < 10 {
      assert Decimal(n)[..0] == "";
    } else {
      DecimalParses(n / 10);
      var s := Decimal(n);
      assert s[..|s| - 1] == Decimal(n / 10);
    }
  }

  /** The parts before and after the last `c`; everything is after it when there is none. */
  function RPartition(s: string, c: char): (string, string) {
    if s == "" then ("", "")
    else
      var n := |s| - 1;
      if s[n] == c then (s[..n], "")
      else
        var (head, tail) := RPartition(s[..n], c);
        (head, tail + [s[n]])
  }

  lemma {:induction false} RPartitionAt(a: string, b: string, c: char)
    requires c !in b
    ensures RPartition(a + [c] + b, c) == (a, b)
  {
    var s := a + [c] + b;
    if b == "" {
      assert s[..|s| - 1] == a;
    } else {
      var n := |b| - 1;
      assert s[..|s| - 1] == a + [c] + b[..n];
      assert b == b[..n] + [b[n]];
      RPartitionAt(a, b[..n], c);
    }
  }
}
