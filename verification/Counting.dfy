/** Counting and summing over sequences, one update at a time. */
module Counting {

  function CountTrue(flags: seq<bool>): nat {
    if flags == [] then 0 else (if flags[0] then 1 else 0) + CountTrue(flags[1..])
  }

  lemma {:induction false} CountUpdate(flags: seq<bool>, i: nat, v: bool)
    requires i < |flags|
    ensures CountTrue(flags[i := v]) ==
            CountTrue(flags) - (if flags[i] then 1 else 0) + (if v then 1 else 0)
  {
    if i == 0 {
      assert flags[i := v][1..] == flags[1..];
    } else {
      assert flags[i := v][1..] == flags[1..][i - 1 := v];
      CountUpdate(flags[1..], i - 1, v);
    }
  }

  lemma {:induction false} CountPositive(flags: seq<bool>, i: nat)
    requires i < |flags| && flags[i]
    ensures CountTrue(flags) >= 1
  {
    if i > 0 { CountPositive(flags[1..], i - 1); }
  }

  /** If every set flag of a is set in b, and b has one more, it counts more. */
  lemma {:induction false} CountStrict(a: seq<bool>, b: seq<bool>, i: nat)
    requires |a| == |b| && i < |a| && !a[i] && b[i]
    requires forall j :: 0 <= j < |a| && a[j] ==> b[j]
    ensures CountTrue(a) < CountTrue(b)
  {
    if i == 0 {
      CountMonotone(a[1..], b[1..]);
    } else {
      CountStrict(a[1..], b[1..], i - 1);
    }
  }

  lemma {:induction false} CountMonotone(a: seq<bool>, b: seq<bool>)
    requires |a| == |b|
    requires forall j :: 0 <= j < |a| && a[j] ==> b[j]
    ensures CountTrue(a) <= CountTrue(b)
  {
    if a != [] { CountMonotone(a[1..], b[1..]); }
  }

  lemma {:induction false} CountNone(flags: seq<bool>)
    requires forall j :: 0 <= j < |flags| ==> !flags[j]
    ensures CountTrue(flags) == 0
  {
    if flags != [] { CountNone(flags[1..]); }
  }

  function Sum(ns: seq<nat>): nat {
    if ns == [] then 0 else ns[0] + Sum(ns[1..])
  }

  lemma {:induction false} SumUpdate(ns: seq<nat>, i: nat, v: nat)
    requires i < |ns|
    ensures Sum(ns[i := v]) == Sum(ns) - ns[i] + v
  {
    if i == 0 {
      assert ns[i := v][1..] == ns[1..];
    } else {
      assert ns[i := v][1..] == ns[1..][i - 1 := v];
      SumUpdate(ns[1..], i - 1, v);
    }
  }

  lemma {:induction false} SumNone(ns: seq<nat>)
    requires forall j :: 0 <= j < |ns| ==> ns[j] == 0
    ensures Sum(ns) == 0
  {
    if ns != [] { SumNone(ns[1..]); }
  }

  /** Sums of counters that the program keeps as plain machine words. */
  function Total(ns: seq<int>): int {
    if ns == [] then 0 else ns[0] + Total(ns[1..])
  }

  lemma {:induction false} TotalUpdate(ns: seq<int>, i: nat, v: int)
    requires i < |ns|
    ensures Total(ns[i := v]) == Total(ns) - ns[i] + v
  {
    if i == 0 {
      assert ns[i := v][1..] == ns[1..];
    } else {
      assert ns[i := v][1..] == ns[1..][i - 1 := v];
      TotalUpdate(ns[1..], i - 1, v);
    }
  }

  ghost predicate NoDup<T>(s: seq<T>) {
    forall i, j :: 0 <= i < j < |s| ==> s[i] != s[j]
  }

  /** s without its element at position k. */
  function Without<T>(s: seq<T>, k: nat): seq<T>
    requires k < |s|
  {
    s[..k] + s[k + 1..]
  }

  lemma WithoutMembers<T>(s: seq<T>, k: nat)
    requires k < |s| && NoDup(s)
    ensures NoDup(Without(s, k))
    ensures forall x :: x in Without(s, k) <==> x in s && x != s[k]
  {
    var r := Without(s, k);
    forall x ensures x in r <==> x in s && x != s[k] {
      if x in s && x != s[k] {
        var i :| 0 <= i < |s| && s[i] == x;
        assert r[if i < k then i else i - 1] == x;
      }
    }
  }

  lemma PushMembers<T>(x: T, s: seq<T>)
    requires NoDup(s) && x !in s
    ensures NoDup([x] + s)
    ensures forall y :: y in [x] + s <==> y == x || y in s
  {
  }

  lemma SliceOfSlice<T>(s: seq<T>, a: nat, b: nat, c: nat, d: nat)
    requires a <= b <= |s| && c <= d <= b - a
    ensures s[a..b][c..d] == s[a + c..a + d]
  {
    var x, y := s[a..b][c..d], s[a + c..a + d];
    forall k | 0 <= k < d - c ensures x[k] == y[k] { assert x[k] == s[a + c + k]; }
  }
}
