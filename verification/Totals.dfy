/** Sums over sequences. The protocol models use them as counters and as run
    measures, the ranking models as fused scores. */
module Totals {

  function Total<T>(f: T -> int, s: seq<T>): int {
    if s == [] then 0 else Total(f, s[..|s| - 1]) + f(s[|s| - 1])
  }

  lemma {:induction false} TotalAppend<T>(f: T -> int, s: seq<T>, x: T)
    ensures Total(f, s + [x]) == Total(f, s) + f(x)
  {
    assert (s + [x])[..|s|] == s;
  }

  lemma {:induction false} TotalConcat<T>(f: T -> int, s: seq<T>, t: seq<T>)
    ensures Total(f, s + t) == Total(f, s) + Total(f, t)
  {
    if t == [] {
      assert s + t == s;
    } else {
      var front := t[..|t| - 1];
      TotalConcat(f, s, front);
      assert (s + t)[..|s + t| - 1] == s + front;
    }
  }

  lemma {:induction false} TotalUpdate<T>(f: T -> int, s: seq<T>, i: nat, x: T)
    requires i < |s|
    ensures Total(f, s[i := x]) == Total(f, s) - f(s[i]) + f(x)
  {
    var front := s[..|s| - 1];
    if i == |s| - 1 {
      assert s[i := x] == front + [x];
      TotalAppend(f, front, x);
    } else {
      TotalUpdate(f, front, i, x);
      assert s[i := x] == front[i := x] + [s[|s| - 1]];
      TotalAppend(f, front[i := x], s[|s| - 1]);
    }
  }

  lemma {:induction false} TotalBetween<T>(f: T -> int, s: seq<T>, lo: int, hi: int)
    requires forall x :: x in s ==> lo <= f(x) <= hi
    ensures |s| * lo <= Total(f, s) <= |s| * hi
  {
    if s != [] {
      var front := s[..|s| - 1];
      TotalBetween(f, front, lo, hi);
      assert s[|s| - 1] in s;
      OneMoreTimes(|front|, |s|, lo);
      OneMoreTimes(|front|, |s|, hi);
    }
  }

  lemma OneMoreTimes(n: int, m: int, x: int)
    requires m == n + 1
    ensures m * x == n * x + x
  {}

  // No single term exceeds a sum of non-negative terms.
  lemma {:induction false} TotalDominates<T>(f: T -> int, s: seq<T>, i: nat)
    requires i < |s|
    requires forall x :: x in s ==> 0 <= f(x)
    ensures f(s[i]) <= Total(f, s)
  {
    var front := s[..|s| - 1];
    TotalNonNegative(f, front);
    assert s[|s| - 1] in s;
    if i < |s| - 1 { TotalDominates(f, front, i); }
  }

  lemma {:induction false} TotalNonNegative<T>(f: T -> int, s: seq<T>)
    requires forall x :: x in s ==> 0 <= f(x)
    ensures 0 <= Total(f, s)
  {
    if s != [] {
      TotalNonNegative(f, s[..|s| - 1]);
      assert s[|s| - 1] in s;
    }
  }

  function RealTotal<T>(f: T -> real, s: seq<T>): real {
    if s == [] then 0.0 else RealTotal(f, s[..|s| - 1]) + f(s[|s| - 1])
  }

  lemma {:induction false} RealTotalConcat<T>(f: T -> real, s: seq<T>, t: seq<T>)
    ensures RealTotal(f, s + t) == RealTotal(f, s) + RealTotal(f, t)
  {
    if t == [] {
      assert s + t == s;
    } else {
      var front := t[..|t| - 1];
      RealTotalConcat(f, s, front);
      assert (s + t)[..|s + t| - 1] == s + front;
    }
  }

  lemma {:induction false} RealTotalRemove<T>(f: T -> real, t: seq<T>, k: nat)
    requires k < |t|
    ensures RealTotal(f, t) == RealTotal(f, t[..k] + t[k + 1..]) + f(t[k])
  {
    AroundItem(t, k);
    RealTotalMiddle(f, t[..k], t[k], t[k + 1..], t);
  }

  lemma AroundItem<T>(t: seq<T>, k: nat)
    requires k < |t|
    ensures t == t[..k] + [t[k]] + t[k + 1..]
  {}

  lemma {:induction false} RealTotalAppend<T>(f: T -> real, s: seq<T>, x: T)
    ensures RealTotal(f, s + [x]) == RealTotal(f, s) + f(x)
  {
    assert (s + [x])[..|s|] == s;
  }

  lemma {:induction false} RealTotalMiddle<T>(f: T -> real, head: seq<T>, x: T, tail: seq<T>, all: seq<T>)
    requires all == head + [x] + tail
    ensures RealTotal(f, all) == RealTotal(f, head + tail) + f(x)
  {
    RealTotalConcat(f, head + [x], tail);
    RealTotalConcat(f, head, tail);
    RealTotalAppend(f, head, x);
  }

  lemma MultisetSplit<T>(s: seq<T>, k: nat)
    requires k < |s|
    ensures multiset(s) == multiset(s[..k] + s[k + 1..]) + multiset{s[k]}
  {
    assert s == s[..k] + ([s[k]] + s[k + 1..]);
    assert multiset(s) == multiset(s[..k]) + (multiset{s[k]} + multiset(s[k + 1..]));
  }

  lemma MultisetRemove<T>(s: seq<T>, t: seq<T>, k: nat)
    requires s != [] && k < |t| && t[k] == s[|s| - 1]
    requires multiset(s) == multiset(t)
    ensures multiset(s[..|s| - 1]) == multiset(t[..k] + t[k + 1..])
  {
    MultisetSplit(t, k);
    MultisetSplit(s, |s| - 1);
    assert s[..|s| - 1] + s[|s| - 1 + 1..] == s[..|s| - 1];
    assert multiset(s[..|s| - 1]) == multiset(s) - multiset{t[k]};
    assert multiset(t[..k] + t[k + 1..]) == multiset(t) - multiset{t[k]};
  }

  // The order of the summands does not matter.
  lemma {:induction false} RealTotalPermuted<T>(f: T -> real, s: seq<T>, t: seq<T>)
    requires multiset(s) == multiset(t)
    ensures RealTotal(f, s) == RealTotal(f, t)
  {
    if s == [] {
      assert |multiset(t)| == 0;
    } else {
      assert s[|s| - 1] in multiset(t);
      var k :| 0 <= k < |t| && t[k] == s[|s| - 1];
      MultisetRemove(s, t, k);
      RealTotalPermuted(f, s[..|s| - 1], t[..k] + t[k + 1..]);
      RealTotalRemove(f, t, k);
    }
  }
}
