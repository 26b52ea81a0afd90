/** sort.SliceStable with a "greater score first" comparison: what it computes,
    and that nothing else has its properties. */
module Sorting {
  import opened Totals

  // Put x behind every element whose key is at least its own.
  function Insert<T>(s: seq<T>, x: T, key: T -> real): seq<T> {
    if s == [] then [x]
    else if key(s[|s| - 1]) >= key(x) then s + [x]
    else Insert(s[..|s| - 1], x, key) + [s[|s| - 1]]
  }

  function StableSort<T>(s: seq<T>, key: T -> real): seq<T> {
    if s == [] then [] else Insert(StableSort(s[..|s| - 1], key), s[|s| - 1], key)
  }

  // Larger key first, ties by original index.
  ghost predicate Before<T>(a: T, b: T, key: T -> real, index: T -> int) {
    key(a) > key(b) || (key(a) == key(b) && index(a) < index(b))
  }

  ghost predicate Ordered<T>(s: seq<T>, key: T -> real, index: T -> int) {
    forall p, q :: 0 <= p < q < |s| ==> Before(s[p], s[q], key, index)
  }

  ghost predicate Indexed<T>(s: seq<T>, index: T -> int) {
    forall p, q :: 0 <= p < q < |s| ==> index(s[p]) < index(s[q])
  }

  lemma SplitLast<T>(s: seq<T>)
    requires s != []
    ensures multiset(s) == multiset(s[..|s| - 1]) + multiset{s[|s| - 1]}
  {
    assert s == s[..|s| - 1] + [s[|s| - 1]];
  }

  lemma {:induction false} InsertMembers<T>(s: seq<T>, x: T, key: T -> real)
    ensures multiset(Insert(s, x, key)) == multiset(s) + multiset{x}
  {
    if s != [] && key(s[|s| - 1]) < key(x) {
      InsertMembers(s[..|s| - 1], x, key);
      SplitLast(s);
    }
  }

  // The result is a permutation.
  lemma {:induction false} SortMembers<T>(s: seq<T>, key: T -> real)
    ensures multiset(StableSort(s, key)) == multiset(s)
  {
    if s != [] {
      SortMembers(s[..|s| - 1], key);
      InsertMembers(StableSort(s[..|s| - 1], key), s[|s| - 1], key);
      SplitLast(s);
    }
  }

  lemma SameMembers<T>(s: seq<T>, t: seq<T>, x: T)
    requires multiset(s) == multiset(t)
    ensures x in s <==> x in t
  {
    assert x in s <==> x in multiset(s);
    assert x in t <==> x in multiset(t);
  }

  lemma {:induction false} InsertOrdered<T>(s: seq<T>, x: T, key: T -> real, index: T -> int)
    requires Ordered(s, key, index) && forall y <- s :: index(y) < index(x)
    ensures Ordered(Insert(s, x, key), key, index)
  {
    if s != [] {
      var front, last := s[..|s| - 1], s[|s| - 1];
      assert last in s;
      forall y | y in front ensures Before(y, last, key, index) {
        var k :| 0 <= k < |front| && front[k] == y;
        assert Before(s[k], s[|s| - 1], key, index);
      }
      if key(last) < key(x) {
        InsertOrdered(front, x, key, index);
        InsertMembers(front, x, key);
        var r := Insert(front, x, key);
        forall p | 0 <= p < |r| ensures Before(r[p], last, key, index) {
          SameMembers(r, front + [x], r[p]);
        }
      } else {
        forall p | 0 <= p < |s| ensures Before(s[p], x, key, index) {
          assert s[p] in s && (s[p] in front || s[p] == last);
        }
      }
    }
  }

  // Larger keys come first, and equal keys keep their original order.
  lemma {:induction false} SortOrdered<T>(s: seq<T>, key: T -> real, index: T -> int)
    requires Indexed(s, index)
    ensures Ordered(StableSort(s, key), key, index)
  {
    if s != [] {
      var front, x := s[..|s| - 1], s[|s| - 1];
      SortOrdered(front, key, index);
      SortMembers(front, key);
      var r := StableSort(front, key);
      forall y | y in r ensures index(y) < index(x) {
        SameMembers(r, front, y);
        var k :| 0 <= k < |front| && front[k] == y;
        assert s[k] == y;
      }
      InsertOrdered(r, x, key, index);
    }
  }

  // Only one arrangement of the elements has that order.
  lemma {:induction false} OrderedUnique<T>(s: seq<T>, t: seq<T>, key: T -> real, index: T -> int)
    requires multiset(s) == multiset(t)
    requires Ordered(s, key, index) && Ordered(t, key, index)
    ensures s == t
  {
    if s == [] {
      assert |multiset(t)| == 0;
    } else {
      assert |multiset(s)| == |s| && |multiset(t)| == |t|;
      HeadsEqual(s, t, key, index);
      assert s == [s[0]] + s[1..] && t == [t[0]] + t[1..];
      assert multiset(s[1..]) == multiset(s) - multiset{s[0]};
      assert multiset(t[1..]) == multiset(t) - multiset{t[0]};
      OrderedUnique(s[1..], t[1..], key, index);
    }
  }

  lemma HeadsEqual<T>(s: seq<T>, t: seq<T>, key: T -> real, index: T -> int)
    requires s != [] && t != [] && multiset(s) == multiset(t)
    requires Ordered(s, key, index) && Ordered(t, key, index)
    ensures s[0] == t[0]
  {
    SameMembers(s, t, s[0]);
    SameMembers(s, t, t[0]);
  }

  // ---- Sorting commutes with renaming

  function MapSeq<A, B>(f: A -> B, s: seq<A>): (r: seq<B>)
    ensures |r| == |s| && forall i :: 0 <= i < |s| ==> r[i] == f(s[i])
  {
    if s == [] then [] else MapSeq(f, s[..|s| - 1]) + [f(s[|s| - 1])]
  }

  lemma {:induction false} InsertMap<A, B>(f: A -> B, s: seq<A>, x: A, ka: A -> real, kb: B -> real)
    requires forall a <- s + [x] :: ka(a) == kb(f(a))
    ensures MapSeq(f, Insert(s, x, ka)) == Insert(MapSeq(f, s), f(x), kb)
  {
    assert x in s + [x];
    if s != [] {
      var last := s[|s| - 1];
      assert last in s + [x];
      if ka(last) < ka(x) {
        forall a | a in s[..|s| - 1] + [x] ensures a in s + [x] {}
        InsertMap(f, s[..|s| - 1], x, ka, kb);
        assert MapSeq(f, s)[..|s| - 1] == MapSeq(f, s[..|s| - 1]);
      }
    }
  }

  lemma {:induction false} SortMap<A, B>(f: A -> B, s: seq<A>, ka: A -> real, kb: B -> real)
    requires forall a <- s :: ka(a) == kb(f(a))
    ensures MapSeq(f, StableSort(s, ka)) == StableSort(MapSeq(f, s), kb)
  {
    if s != [] {
      var front, x := s[..|s| - 1], s[|s| - 1];
      SortMap(f, front, ka, kb);
      SortMembers(front, ka);
      var r := StableSort(front, ka);
      forall a | a in r + [x] ensures ka(a) == kb(f(a)) {
        SameMembers(r, front, a);
      }
      InsertMap(f, r, x, ka, kb);
      assert MapSeq(f, s)[..|s| - 1] == MapSeq(f, front);
    }
  }

  // Only the keys of the elements matter.
  lemma {:induction false} SortCongruent<T>(s: seq<T>, a: T -> real, b: T -> real)
    requires forall x <- s :: a(x) == b(x)
    ensures StableSort(s, a) == StableSort(s, b)
  {
    var same := (x: T) => x;
    SortMap(same, s, a, b);
    assert MapSeq(same, s) == s;
    assert MapSeq(same, StableSort(s, a)) == StableSort(s, a);
  }

  lemma {:induction false} SkipOne<T>(m: seq<T>, r: seq<T>, k: nat)
    requires k < |m| && |r| == |m| - 1
    requires forall i :: 0 <= i < k ==> r[i] == m[i]
    requires forall i :: k <= i < |r| ==> r[i] == m[i + 1]
    ensures r == m[..k] + m[k + 1..]
  {}

  lemma {:induction false} MapWithout<A, B>(f: A -> B, t: seq<A>, k: nat, shorter: seq<A>)
    requires k < |t| && shorter == t[..k] + t[k + 1..]
    ensures MapSeq(f, shorter) == MapSeq(f, t)[..k] + MapSeq(f, t)[k + 1..]
  {
    assert forall i :: 0 <= i < k ==> shorter[i] == t[i];
    assert forall i :: k <= i < |shorter| ==> shorter[i] == t[i + 1];
    SkipOne(MapSeq(f, t), MapSeq(f, shorter), k);
  }

  lemma {:induction false} MapRemove<A, B>(f: A -> B, t: seq<A>, k: nat)
    requires k < |t|
    ensures multiset(MapSeq(f, t)) == multiset(MapSeq(f, t[..k] + t[k + 1..])) + multiset{f(t[k])}
  {
    MapWithout(f, t, k, t[..k] + t[k + 1..]);
    MultisetSplit(MapSeq(f, t), k);
  }

  // Renaming keeps permutations.
  lemma {:induction false} MapPermuted<A, B>(f: A -> B, s: seq<A>, t: seq<A>)
    requires multiset(s) == multiset(t)
    ensures multiset(MapSeq(f, s)) == multiset(MapSeq(f, t))
  {
    if s == [] {
      assert |multiset(t)| == 0;
    } else {
      var n := |s| - 1;
      SameMembers(s, t, s[n]);
      var k :| 0 <= k < |t| && t[k] == s[n];
      MultisetRemove(s, t, k);
      MapPermuted(f, s[..n], t[..k] + t[k + 1..]);
      MapRemove(f, t, k);
      MapRemove(f, s, n);
      assert s[..n] + s[n + 1..] == s[..n];
    }
  }
}
