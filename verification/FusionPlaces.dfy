/** What the two fusions (websearch/fusion.go, imagesearch/fusion.go) return,
    told by the places of their input: result set, then rank. */
module FusionPlaces {
  import opened SearchTypes
  import opened Sorting
  import opened Fusion

  // Item k of set i is the first one with its URL, which is not empty.
  predicate FirstPlace<T>(urlOf: T -> string, sets: seq<seq<T>>, i: nat, k: nat) {
    && i < |sets| && k < |sets[i]|
    && urlOf(sets[i][k]) != ""
    && (forall j, m :: 0 <= j < i && 0 <= m < |sets[j]| ==> urlOf(sets[j][m]) != urlOf(sets[i][k]))
    && (forall m :: 0 <= m < k ==> urlOf(sets[i][m]) != urlOf(sets[i][k]))
  }

  // Earlier set, or earlier in the same set.
  predicate EarlierPlace(i: nat, k: nat, j: nat, m: nat) { i < j || (i == j && k < m) }

  // ---- First occurrences

  lemma {:induction false} FirstItemConcat<T>(a: seq<Hit<T>>, b: seq<Hit<T>>, u: string)
    ensures FirstItem(a + b, u) == if FirstItem(a, u).Some? then FirstItem(a, u) else FirstItem(b, u)
  {
    if b == [] {
      assert a + b == a;
    } else {
      FirstItemConcat(a, b[..|b| - 1], u);
      assert (a + b)[..|a + b| - 1] == a + b[..|b| - 1];
    }
  }

  lemma FirstItemHit<T>(a: seq<Hit<T>>, h: Hit<T>, u: string)
    ensures FirstItem(a + [h], u) ==
      if FirstItem(a, u).Some? then FirstItem(a, u) else if h.url == u then Some(h.item) else None
  {
    assert (a + [h])[..|a|] == a;
  }

  // Item k is the first of a set with URL u, and the one kept for it.
  predicate FirstIn<T(==)>(urlOf: T -> string, items: seq<T>, kept: Option<T>, u: string, k: nat) {
    && k < |items| && urlOf(items[k]) == u != "" && kept == Some(items[k])
    && forall m :: 0 <= m < k ==> urlOf(items[m]) != u
  }

  lemma {:induction false} FirstInSet<T>(urlOf: T -> string, items: seq<T>, w: real, u: string) returns (k: nat)
    requires FirstItem(SetHits(urlOf, items, w), u).Some?
    ensures FirstIn(urlOf, items, FirstItem(SetHits(urlOf, items, w), u), u, k)
  {
    var n := |items| - 1;
    FirstItemLast(urlOf, items, w, u);
    if FirstItem(SetHits(urlOf, items[..n], w), u).Some? {
      k := FirstInSet(urlOf, items[..n], w, u);
      FirstInLonger(urlOf, items, n, FirstItem(SetHits(urlOf, items[..n], w), u), u, k);
    } else {
      k := n;
      NotInSet(urlOf, items[..n], w, u);
      FirstIsLast(urlOf, items, n, u);
    }
  }

  lemma FirstInLonger<T>(urlOf: T -> string, items: seq<T>, n: nat, kept: Option<T>, u: string, k: nat)
    requires n <= |items| && FirstIn(urlOf, items[..n], kept, u, k)
    ensures FirstIn(urlOf, items, kept, u, k)
  {
    forall m | 0 <= m < k ensures urlOf(items[m]) != u { assert items[m] == items[..n][m]; }
  }

  lemma FirstIsLast<T>(urlOf: T -> string, items: seq<T>, n: nat, u: string)
    requires |items| == n + 1 && urlOf(items[n]) == u != ""
    requires forall m :: 0 <= m < n ==> urlOf(items[..n][m]) != u
    ensures FirstIn(urlOf, items, Some(items[n]), u, n)
  {
    forall m | 0 <= m < n ensures urlOf(items[m]) != u { assert items[m] == items[..n][m]; }
  }

  lemma FirstItemLast<T>(urlOf: T -> string, items: seq<T>, w: real, u: string)
    requires items != []
    ensures var n := |items| - 1;
      var earlier := FirstItem(SetHits(urlOf, items[..n], w), u);
      FirstItem(SetHits(urlOf, items, w), u) ==
        if earlier.Some? then earlier else if urlOf(items[n]) == u && u != "" then Some(items[n]) else None
  {
    var n := |items| - 1;
    var front := SetHits(urlOf, items[..n], w);
    var last := urlOf(items[n]);
    if last == "" {
      assert front + [] == front;
      if u == "" { NoEmptyUrl(urlOf, items[..n], w); }
    } else {
      FirstItemHit(front, Hit(last, items[n], Rrf(w, n)), u);
    }
  }

  lemma NoEmptyUrl<T>(urlOf: T -> string, items: seq<T>, w: real)
    ensures FirstItem(SetHits(urlOf, items, w), "") == None
  {
    Unseen(SetHits(urlOf, items, w), "");
    SeenIsHit(SetHits(urlOf, items, w), "");
    SetHitIsOccurrence(urlOf, items, w, "");
  }

  lemma NotInSet<T>(urlOf: T -> string, items: seq<T>, w: real, u: string)
    requires u != "" && FirstItem(SetHits(urlOf, items, w), u) == None
    ensures forall m :: 0 <= m < |items| ==> urlOf(items[m]) != u
  {
    Unseen(SetHits(urlOf, items, w), u);
    SeenIsHit(SetHits(urlOf, items, w), u);
    SetHitIsOccurrence(urlOf, items, w, u);
    forall m | 0 <= m < |items| ensures urlOf(items[m]) != u {
      assert MapSeq(urlOf, items)[m] in MapSeq(urlOf, items);
    }
  }

  lemma NotInSets<T>(urlOf: T -> string, sets: seq<seq<T>>, weights: seq<real>, u: string)
    requires u != "" && FirstItem(Hits(urlOf, sets, weights), u) == None
    ensures forall j, m :: 0 <= j < |sets| && 0 <= m < |sets[j]| ==> urlOf(sets[j][m]) != u
  {
    Unseen(Hits(urlOf, sets, weights), u);
    SeenIsOccurrence(urlOf, sets, weights, u);
    forall j, m | 0 <= j < |sets| && 0 <= m < |sets[j]| ensures urlOf(sets[j][m]) != u {
      assert UrlLists(urlOf, sets)[j] == MapSeq(urlOf, sets[j]);
      assert UrlLists(urlOf, sets)[j][m] == urlOf(sets[j][m]);
    }
  }

  predicate KeptAt<T(==)>(urlOf: T -> string, sets: seq<seq<T>>, kept: Option<T>, u: string, i: nat, k: nat) {
    FirstPlace(urlOf, sets, i, k) && urlOf(sets[i][k]) == u && kept == Some(sets[i][k])
  }

  lemma KeptInLonger<T>(urlOf: T -> string, sets: seq<seq<T>>, n: nat, kept: Option<T>, u: string, i: nat, k: nat)
    requires n <= |sets| && KeptAt(urlOf, sets[..n], kept, u, i, k)
    ensures KeptAt(urlOf, sets, kept, u, i, k)
  {
    assert sets[..n][i] == sets[i];
    forall j, m | 0 <= j < i && 0 <= m < |sets[j]| ensures urlOf(sets[j][m]) != u {
      assert sets[..n][j] == sets[j];
    }
  }

  lemma KeptInLast<T>(urlOf: T -> string, sets: seq<seq<T>>, n: nat, kept: Option<T>, u: string, k: nat)
    requires |sets| == n + 1 && FirstIn(urlOf, sets[n], kept, u, k)
    requires forall j, m :: 0 <= j < n && 0 <= m < |sets[..n][j]| ==> urlOf(sets[..n][j][m]) != u
    ensures KeptAt(urlOf, sets, kept, u, n, k)
  {
    forall j, m | 0 <= j < n && 0 <= m < |sets[j]| ensures urlOf(sets[j][m]) != u {
      assert sets[..n][j] == sets[j];
    }
  }

  // The item a URL is kept with stands at the first place that has the URL.
  lemma {:induction false} FirstItemPlace<T>(urlOf: T -> string, sets: seq<seq<T>>, weights: seq<real>, u: string)
    returns (i: nat, k: nat)
    requires FirstItem(Hits(urlOf, sets, weights), u).Some?
    ensures KeptAt(urlOf, sets, FirstItem(Hits(urlOf, sets, weights), u), u, i, k)
  {
    var n := |sets| - 1;
    var w := WeightAt(weights, n);
    FirstItemConcat(Hits(urlOf, sets[..n], weights), SetHits(urlOf, sets[n], w), u);
    if FirstItem(Hits(urlOf, sets[..n], weights), u).Some? {
      i, k := FirstItemPlace(urlOf, sets[..n], weights, u);
      KeptInLonger(urlOf, sets, n, FirstItem(Hits(urlOf, sets[..n], weights), u), u, i, k);
    } else {
      i := n;
      k := FirstInSet(urlOf, sets[n], w, u);
      NotInSets(urlOf, sets[..n], weights, u);
      KeptInLast(urlOf, sets, n, FirstItem(SetHits(urlOf, sets[n], w), u), u, k);
    }
  }

  // ---- First-seen order is the order of first places

  lemma {:induction false} FirstSeenPrefix<T>(a: seq<Hit<T>>, b: seq<Hit<T>>)
    ensures |FirstSeen(a)| <= |FirstSeen(a + b)| && FirstSeen(a + b)[..|FirstSeen(a)|] == FirstSeen(a)
  {
    if b == [] {
      assert a + b == a;
    } else {
      FirstSeenPrefix(a, b[..|b| - 1]);
      assert (a + b)[..|a + b| - 1] == a + b[..|b| - 1];
    }
  }

  lemma {:induction false} SetHitsPrefix<T>(urlOf: T -> string, items: seq<T>, w: real, m: nat)
    returns (rest: seq<Hit<T>>)
    requires m <= |items|
    ensures SetHits(urlOf, items, w) == SetHits(urlOf, items[..m], w) + rest
  {
    rest := [];
    if m == |items| {
      assert items[..m] == items;
    } else {
      var n := |items| - 1;
      var r := SetHitsPrefix(urlOf, items[..n], w, m);
      assert items[..n][..m] == items[..m];
      rest := r + (if urlOf(items[n]) == "" then [] else [Hit(urlOf(items[n]), items[n], Rrf(w, n))]);
    }
  }

  // The sets up to a place, the place itself excluded.
  function UpTo<T>(sets: seq<seq<T>>, j: nat, m: nat): seq<seq<T>>
    requires j < |sets| && m <= |sets[j]|
  {
    sets[..j] + [sets[j][..m]]
  }

  lemma HitsAppend<T>(urlOf: T -> string, front: seq<seq<T>>, last: seq<T>, weights: seq<real>)
    ensures Hits(urlOf, front + [last], weights)
         == Hits(urlOf, front, weights) + SetHits(urlOf, last, WeightAt(weights, |front|))
  {
    assert (front + [last])[..|front|] == front;
  }

  lemma UpToFront<T>(sets: seq<seq<T>>, n: nat, j: nat, m: nat)
    requires j < n <= |sets| && m <= |sets[j]|
    ensures sets[..n][j] == sets[j] && UpTo(sets[..n], j, m) == UpTo(sets, j, m)
  {
    assert sets[..n][..j] == sets[..j];
  }

  lemma JoinRest<T>(part: seq<T>, r: seq<T>, tail: seq<T>)
    ensures (part + r) + tail == part + (r + tail)
  {}

  lemma {:induction false} HitsPrefix<T>(urlOf: T -> string, sets: seq<seq<T>>, weights: seq<real>, j: nat, m: nat)
    returns (rest: seq<Hit<T>>)
    requires j < |sets| && m <= |sets[j]|
    ensures Hits(urlOf, sets, weights) == Hits(urlOf, UpTo(sets, j, m), weights) + rest
  {
    var n := |sets| - 1;
    var w := WeightAt(weights, n);
    assert sets == sets[..n] + [sets[n]];
    HitsAppend(urlOf, sets[..n], sets[n], weights);
    if j == n {
      rest := SetHitsPrefix(urlOf, sets[n], w, m);
      HitsAppend(urlOf, sets[..n], sets[n][..m], weights);
      JoinRest(Hits(urlOf, sets[..n], weights), SetHits(urlOf, sets[n][..m], w), rest);
    } else {
      UpToFront(sets, n, j, m);
      var r := HitsPrefix(urlOf, sets[..n], weights, j, m);
      rest := r + SetHits(urlOf, sets[n], w);
      JoinRest(Hits(urlOf, UpTo(sets, j, m), weights), r, SetHits(urlOf, sets[n], w));
    }
  }

  lemma {:induction false} PositionNatural(order: seq<string>, u: string)
    ensures Position(order, u) >= 0
  {
    if order != [] { PositionNatural(order[1..], u); }
  }

  lemma {:induction false} PositionWithin(order: seq<string>, n: nat, u: string)
    requires n <= |order|
    ensures u in order[..n] ==> Position(order, u) < n
    ensures u !in order[..n] ==> Position(order, u) >= n
  {
    PositionNatural(order, u);
    if n > 0 {
      PositionWithin(order[1..], n - 1, u);
      assert order[..n] == [order[0]] + order[1..][..n - 1];
    }
  }

  lemma OccursUpTo<T>(urlOf: T -> string, sets: seq<seq<T>>, j: nat, m: nat, u: string)
    requires j < |sets| && m <= |sets[j]|
    ensures Occurs(UrlLists(urlOf, UpTo(sets, j, m)), u) <==>
      exists i, k :: 0 <= i < |sets| && 0 <= k < |sets[i]| && EarlierPlace(i, k, j, m) && urlOf(sets[i][k]) == u
  {
    var part := UpTo(sets, j, m);
    var urls := UrlLists(urlOf, part);
    assert forall i :: 0 <= i < |part| ==> urls[i] == MapSeq(urlOf, part[i]);
    if i, k :| 0 <= i < |urls| && 0 <= k < |urls[i]| && urls[i][k] == u {
      assert EarlierPlace(i, k, j, m) && urlOf(sets[i][k]) == u;
    }
    if i, k :| 0 <= i < |sets| && 0 <= k < |sets[i]| && EarlierPlace(i, k, j, m) && urlOf(sets[i][k]) == u {
      assert part[i][k] == sets[i][k] && urls[i][k] == u;
    }
  }

  lemma EarlierSeenFirst<T>(urlOf: T -> string, sets: seq<seq<T>>, weights: seq<real>, i: nat, k: nat, j: nat, m: nat)
    requires FirstPlace(urlOf, sets, i, k) && FirstPlace(urlOf, sets, j, m) && EarlierPlace(i, k, j, m)
    ensures var order := FirstSeen(Hits(urlOf, sets, weights));
      Position(order, urlOf(sets[i][k])) < Position(order, urlOf(sets[j][m]))
  {
    var u, v := urlOf(sets[i][k]), urlOf(sets[j][m]);
    var part := UpTo(sets, j, m);
    var rest := HitsPrefix(urlOf, sets, weights, j, m);
    var before := Hits(urlOf, part, weights);
    FirstSeenPrefix(before, rest);
    SeenIsOccurrence(urlOf, part, weights, u);
    SeenIsOccurrence(urlOf, part, weights, v);
    OccursUpTo(urlOf, sets, j, m, u);
    OccursUpTo(urlOf, sets, j, m, v);
    var order := FirstSeen(Hits(urlOf, sets, weights));
    PositionWithin(order, |FirstSeen(before)|, u);
    PositionWithin(order, |FirstSeen(before)|, v);
  }

  lemma PlaceOfPosition<T>(urlOf: T -> string, sets: seq<seq<T>>, weights: seq<real>, i: nat, k: nat, j: nat, m: nat)
    requires FirstPlace(urlOf, sets, i, k) && FirstPlace(urlOf, sets, j, m)
    requires var order := FirstSeen(Hits(urlOf, sets, weights));
      Position(order, urlOf(sets[i][k])) < Position(order, urlOf(sets[j][m]))
    ensures EarlierPlace(i, k, j, m)
  {
    if EarlierPlace(j, m, i, k) { EarlierSeenFirst(urlOf, sets, weights, j, m, i, k); }
  }

  // ---- What FuseWRR returns

  // The item of its URL's first place under the double-sum score.
  predicate KeptFrom(sets: seq<seq<Result>>, weights: seq<real>, r: Result, i: nat, k: nat) {
    && FirstPlace(UrlOf, sets, i, k)
    && r == sets[i][k].(score := UrlScore(UrlLists(UrlOf, sets), weights, sets[i][k].url))
  }

  lemma FusedFrom(sets: seq<seq<Result>>, weights: seq<real>, r: Result) returns (i: nat, k: nat)
    requires r in WebFused(sets, weights)
    ensures KeptFrom(sets, weights, r, i, k)
  {
    FusionMeaning(sets, weights);
    assert IsFusedEntry(sets, weights, r);
    i, k := FirstItemPlace(UrlOf, sets, weights, r.url);
  }

  ghost predicate KeptSomewhere(sets: seq<seq<Result>>, weights: seq<real>, r: Result) {
    exists i, k :: KeptFrom(sets, weights, r, i, k)
  }

  // By descending score, and by place among equals.
  predicate RankedBefore(sa: real, i: nat, k: nat, sb: real, j: nat, m: nat) {
    sa > sb || (sa == sb && EarlierPlace(i, k, j, m))
  }

  lemma SamePlace<T>(urlOf: T -> string, sets: seq<seq<T>>, i: nat, k: nat, j: nat, m: nat)
    requires FirstPlace(urlOf, sets, i, k) && FirstPlace(urlOf, sets, j, m)
    requires urlOf(sets[i][k]) == urlOf(sets[j][m])
    ensures i == j && k == m
  {}

  lemma KeptFromPlace(sets: seq<seq<Result>>, weights: seq<real>, i: nat, k: nat) returns (p: nat)
    requires FirstPlace(UrlOf, sets, i, k)
    ensures p < |WebFused(sets, weights)| && KeptFrom(sets, weights, WebFused(sets, weights)[p], i, k)
  {
    FusionMeaning(sets, weights);
    var u, urls := sets[i][k].url, UrlLists(UrlOf, sets);
    assert urls[i] == MapSeq(UrlOf, sets[i]) && urls[i][k] == u;
    assert Occurs(urls, u);
    var r :| r in WebFused(sets, weights) && r.url == u;
    p :| 0 <= p < |WebFused(sets, weights)| && WebFused(sets, weights)[p] == r;
    var j, m := FusedFrom(sets, weights, r);
    SamePlace(UrlOf, sets, i, k, j, m);
  }

  lemma FusedRanks(sets: seq<seq<Result>>, weights: seq<real>, p: nat, q: nat, i: nat, k: nat, j: nat, m: nat)
    requires p < q < |WebFused(sets, weights)|
    requires KeptFrom(sets, weights, WebFused(sets, weights)[p], i, k)
    requires KeptFrom(sets, weights, WebFused(sets, weights)[q], j, m)
    ensures RankedBefore(WebFused(sets, weights)[p].score, i, k, WebFused(sets, weights)[q].score, j, m)
  {
    FusionMeaning(sets, weights);
    if WebFused(sets, weights)[p].score == WebFused(sets, weights)[q].score {
      PlaceOfPosition(UrlOf, sets, weights, i, k, j, m);
    }
  }

  ghost predicate WebRanked(sets: seq<seq<Result>>, weights: seq<real>, out: seq<Result>, p: nat, q: nat)
    requires p < q < |out|
  {
    forall i, k, j, m :: KeptFrom(sets, weights, out[p], i, k) && KeptFrom(sets, weights, out[q], j, m) ==>
      RankedBefore(out[p].score, i, k, out[q].score, j, m)
  }

  ghost predicate HoldsPlace(sets: seq<seq<Result>>, weights: seq<real>, out: seq<Result>, i: nat, k: nat) {
    exists p :: 0 <= p < |out| && KeptFrom(sets, weights, out[p], i, k)
  }

  // FuseWRR returns every item that is the first with its URL, and nothing else,
  // each under its double-sum score, by descending score and equal scores in the
  // order of the places.
  lemma FusedByPlace(sets: seq<seq<Result>>, weights: seq<real>)
    ensures var out := WebFused(sets, weights);
      && (forall r <- out :: KeptSomewhere(sets, weights, r))
      && (forall i, k :: FirstPlace(UrlOf, sets, i, k) ==> HoldsPlace(sets, weights, out, i, k))
      && (forall p, q :: 0 <= p < q < |out| ==> WebRanked(sets, weights, out, p, q))
  {
    var out := WebFused(sets, weights);
    forall r | r in out ensures KeptSomewhere(sets, weights, r) {
      var i, k := FusedFrom(sets, weights, r);
    }
    forall i, k | FirstPlace(UrlOf, sets, i, k) ensures HoldsPlace(sets, weights, out, i, k) {
      var p := KeptFromPlace(sets, weights, i, k);
    }
    forall p, q | 0 <= p < q < |out| ensures WebRanked(sets, weights, out, p, q) {
      forall i, k, j, m | KeptFrom(sets, weights, out[p], i, k) && KeptFrom(sets, weights, out[q], j, m)
        ensures RankedBefore(out[p].score, i, k, out[q].score, j, m)
      {
        FusedRanks(sets, weights, p, q, i, k, j, m);
      }
    }
  }

  // ---- What the image fusion returns

  lemma {:induction false} ImageItemAt(hits: seq<Hit<ImageResult>>, order: seq<string>, k: nat)
    requires forall u <- order :: FirstItem(hits, u).Some?
    requires k < |order|
    ensures |ImageItems(hits, order)| == |order|
    ensures FirstItem(hits, order[k]) == Some(ImageItems(hits, order)[k])
  {
    assert order[k] in order;
    if k < |order| - 1 {
      ImageItemAt(hits, order[..|order| - 1], k);
    } else if |order| > 1 {
      ImageItemAt(hits, order[..|order| - 1], 0);
    }
  }

  function ImageScore(sets: seq<seq<ImageResult>>, u: string): real { UrlScore(UrlLists(ImageUrlOf, sets), [], u) }

  predicate ImageFrom(sets: seq<seq<ImageResult>>, r: ImageResult, i: nat, k: nat) {
    FirstPlace(ImageUrlOf, sets, i, k) && r == sets[i][k]
  }

  ghost predicate ImageFromSomewhere(sets: seq<seq<ImageResult>>, r: ImageResult) {
    exists i, k :: ImageFrom(sets, r, i, k)
  }

  ghost predicate ImageRanked(sets: seq<seq<ImageResult>>, out: seq<ImageResult>, p: nat, q: nat)
    requires p < q < |out|
  {
    forall i, k, j, m :: ImageFrom(sets, out[p], i, k) && ImageFrom(sets, out[q], j, m) ==>
      RankedBefore(ImageScore(sets, out[p].url), i, k, ImageScore(sets, out[q].url), j, m)
  }

  // The k-th item before the sort is the one at the first place of the k-th URL.
  lemma ImageItemPlace(sets: seq<seq<ImageResult>>, n: nat) returns (i: nat, k: nat)
    requires n < |FirstSeen(Hits(ImageUrlOf, sets, []))|
    ensures var hits := Hits(ImageUrlOf, sets, []);
      var order := FirstSeen(hits);
      && (forall u <- order :: FirstItem(hits, u).Some?)
      && |ImageItems(hits, order)| == |order|
      && ImageFrom(sets, ImageItems(hits, order)[n], i, k)
      && ImageItems(hits, order)[n].url == order[n]
  {
    var hits := Hits(ImageUrlOf, sets, []);
    var order := FirstSeen(hits);
    AllSeen(hits);
    ImageItemAt(hits, order, n);
    i, k := FirstItemPlace(ImageUrlOf, sets, [], order[n]);
  }

  lemma ImagesInOrder(sets: seq<seq<ImageResult>>)
    ensures var hits := Hits(ImageUrlOf, sets, []);
      var order := FirstSeen(hits);
      && (forall u <- order :: FirstItem(hits, u).Some?)
      && Indexed(ImageItems(hits, order), (r: ImageResult) => Position(order, r.url))
  {
    var hits := Hits(ImageUrlOf, sets, []);
    var order := FirstSeen(hits);
    AllSeen(hits);
    FirstSeenDistinct(hits);
    var items := ImageItems(hits, order);
    if items != [] && order != [] { ImageItemAt(hits, order, 0); }
    forall p, q | 0 <= p < q < |items| ensures Position(order, items[p].url) < Position(order, items[q].url) {
      var i, k := ImageItemPlace(sets, p);
      var j, m := ImageItemPlace(sets, q);
      PositionAt(order, p);
      PositionAt(order, q);
    }
  }

  lemma ImageFusedFrom(sets: seq<seq<ImageResult>>, r: ImageResult) returns (i: nat, k: nat)
    requires r in ImageFused(sets)
    ensures ImageFrom(sets, r, i, k)
  {
    var hits := Hits(ImageUrlOf, sets, []);
    var order := FirstSeen(hits);
    AllSeen(hits);
    var items := ImageItems(hits, order);
    SortMembers(items, ImageKey(hits));
    SameMembers(ImageFused(sets), items, r);
    var n :| 0 <= n < |items| && items[n] == r;
    if order != [] { ImageItemAt(hits, order, 0); }
    i, k := ImageItemPlace(sets, n);
  }

  lemma ImageAtPlace(sets: seq<seq<ImageResult>>, i: nat, k: nat)
    requires FirstPlace(ImageUrlOf, sets, i, k)
    ensures sets[i][k] in ImageFused(sets)
  {
    var u, urls := sets[i][k].url, UrlLists(ImageUrlOf, sets);
    assert urls[i] == MapSeq(ImageUrlOf, sets[i]) && urls[i][k] == u;
    assert Occurs(urls, u);
    SeenIsOccurrence(ImageUrlOf, sets, [], u);
    var hits := Hits(ImageUrlOf, sets, []);
    var order := FirstSeen(hits);
    var n :| 0 <= n < |order| && order[n] == u;
    var j, m := ImageItemPlace(sets, n);
    SamePlace(ImageUrlOf, sets, i, k, j, m);
    var items := ImageItems(hits, order);
    SortMembers(items, ImageKey(hits));
    SameMembers(ImageFused(sets), items, items[n]);
  }

  lemma ImageRanks(sets: seq<seq<ImageResult>>, p: nat, q: nat, i: nat, k: nat, j: nat, m: nat)
    requires p < q < |ImageFused(sets)|
    requires ImageFrom(sets, ImageFused(sets)[p], i, k) && ImageFrom(sets, ImageFused(sets)[q], j, m)
    ensures var out := ImageFused(sets);
      RankedBefore(ImageScore(sets, out[p].url), i, k, ImageScore(sets, out[q].url), j, m)
  {
    var hits := Hits(ImageUrlOf, sets, []);
    var order := FirstSeen(hits);
    var index := (r: ImageResult) => Position(order, r.url);
    ImagesInOrder(sets);
    SortOrdered(ImageItems(hits, order), ImageKey(hits), index);
    var a, b := ImageFused(sets)[p], ImageFused(sets)[q];
    assert Before(a, b, ImageKey(hits), index);
    GainIsUrlScore(ImageUrlOf, sets, [], a.url);
    GainIsUrlScore(ImageUrlOf, sets, [], b.url);
    if Gain(hits, a.url) == Gain(hits, b.url) { PlaceOfPosition(ImageUrlOf, sets, [], i, k, j, m); }
  }

  // The image fusion returns the very items that are the first with their URL,
  // by descending sum of 1 / (60 + rank) and equal sums in the order of the places.
  lemma ImagesByPlace(sets: seq<seq<ImageResult>>)
    ensures var out := ImageFused(sets);
      && (forall r <- out :: ImageFromSomewhere(sets, r))
      && (forall i: nat, k: nat :: FirstPlace(ImageUrlOf, sets, i, k) ==> sets[i][k] in out)
      && (forall p, q :: 0 <= p < q < |out| ==> ImageRanked(sets, out, p, q))
  {
    var out := ImageFused(sets);
    forall r | r in out ensures ImageFromSomewhere(sets, r) {
      var i, k := ImageFusedFrom(sets, r);
    }
    forall i: nat, k: nat | FirstPlace(ImageUrlOf, sets, i, k) ensures sets[i][k] in out {
      ImageAtPlace(sets, i, k);
    }
    forall p, q | 0 <= p < q < |out| ensures ImageRanked(sets, out, p, q) {
      forall i, k, j, m | ImageFrom(sets, out[p], i, k) && ImageFrom(sets, out[q], j, m)
        ensures RankedBefore(ImageScore(sets, out[p].url), i, k, ImageScore(sets, out[q].url), j, m)
      {
        ImageRanks(sets, p, q, i, k, j, m);
      }
    }
  }
}
