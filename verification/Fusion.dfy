/** Reciprocal rank fusion (websearch/fusion.go) and its unweighted twin for
    images (imagesearch/fusion.go), against a plain double sum. */
module Fusion {
  import opened SearchTypes
  import opened Totals
  import opened Sorting

  const RRF_K := 60

  datatype ImageResult = ImageResult(url: string, thumbnail: string, title: string)

  function WeightAt(weights: seq<real>, i: nat): real { if i < |weights| then weights[i] else 1.0 }

  function Rrf(w: real, rank: nat): real { w / (RRF_K + rank) as real }

  // ---- The simple specification: sums over all occurrences

  // What one result set contributes to URL u.
  function SetScore(urls: seq<string>, w: real, u: string): real {
    if urls == [] then 0.0
    else
      var n := |urls| - 1;
      SetScore(urls[..n], w, u) + (if urls[n] == u then w / (60 + n) as real else 0.0)
  }

  // The fused score of u: over all sets and ranks, weight / (60 + rank).
  function UrlScore(sets: seq<seq<string>>, weights: seq<real>, u: string): real {
    if sets == [] then 0.0
    else
      var n := |sets| - 1;
      UrlScore(sets[..n], weights, u) + SetScore(sets[n], if n < |weights| then weights[n] else 1.0, u)
  }

  // What all occurrences of all non-empty URLs contribute together.
  function SetTotal(urls: seq<string>, w: real): real {
    if urls == [] then 0.0
    else
      var n := |urls| - 1;
      SetTotal(urls[..n], w) + (if urls[n] != "" then w / (60 + n) as real else 0.0)
  }

  function GrandTotal(sets: seq<seq<string>>, weights: seq<real>): real {
    if sets == [] then 0.0
    else
      var n := |sets| - 1;
      GrandTotal(sets[..n], weights) + SetTotal(sets[n], if n < |weights| then weights[n] else 1.0)
  }

  // ---- The table the loops build

  // One occurrence: its URL, the item it came with, its share of the score.
  datatype Hit<T> = Hit(url: string, item: T, gain: real)

  function SetHits<T>(urlOf: T -> string, items: seq<T>, w: real): seq<Hit<T>> {
    if items == [] then []
    else
      var n := |items| - 1;
      var u := urlOf(items[n]);
      SetHits(urlOf, items[..n], w) + (if u == "" then [] else [Hit(u, items[n], Rrf(w, n))])
  }

  function Hits<T>(urlOf: T -> string, sets: seq<seq<T>>, weights: seq<real>): seq<Hit<T>> {
    if sets == [] then []
    else
      var n := |sets| - 1;
      Hits(urlOf, sets[..n], weights) + SetHits(urlOf, sets[n], WeightAt(weights, n))
  }

  // Distinct URLs in the order of their first occurrence.
  function FirstSeen<T>(hits: seq<Hit<T>>): seq<string> {
    if hits == [] then []
    else
      var seen := FirstSeen(hits[..|hits| - 1]);
      if hits[|hits| - 1].url in seen then seen else seen + [hits[|hits| - 1].url]
  }

  function Gain<T>(hits: seq<Hit<T>>, u: string): real {
    if hits == [] then 0.0
    else Gain(hits[..|hits| - 1], u) + (if hits[|hits| - 1].url == u then hits[|hits| - 1].gain else 0.0)
  }

  // The item a URL was first seen with.
  function FirstItem<T>(hits: seq<Hit<T>>, u: string): Option<T> {
    if hits == [] then None
    else
      var earlier := FirstItem(hits[..|hits| - 1], u);
      if earlier.None? && hits[|hits| - 1].url == u then Some(hits[|hits| - 1].item) else earlier
  }

  datatype Entry<T> = Entry(item: T, score: real)

  // The state of the loops: the map from URL to entry and the first-seen order.
  ghost predicate IsTable<T(!new)>(hits: seq<Hit<T>>, byUrl: map<string, Entry<T>>, order: seq<string>) {
    && order == FirstSeen(hits)
    && (forall u :: u in byUrl <==> u in order)
    && (forall u <- byUrl :: FirstItem(hits, u) == Some(byUrl[u].item) && byUrl[u].score == Gain(hits, u))
  }

  function AddHit<T>(byUrl: map<string, Entry<T>>, h: Hit<T>): map<string, Entry<T>> {
    if h.url in byUrl then byUrl[h.url := byUrl[h.url].(score := byUrl[h.url].score + h.gain)]
    else byUrl[h.url := Entry(h.item, h.gain)]
  }

  lemma {:induction false} Unseen<T>(hits: seq<Hit<T>>, u: string)
    ensures u in FirstSeen(hits) <==> FirstItem(hits, u).Some?
    ensures u !in FirstSeen(hits) ==> Gain(hits, u) == 0.0
  {
    if hits != [] { Unseen(hits[..|hits| - 1], u); }
  }

  // Handling one more occurrence keeps the table.
  lemma TableStep<T(!new)>(hits: seq<Hit<T>>, h: Hit<T>, byUrl: map<string, Entry<T>>, order: seq<string>)
    requires IsTable(hits, byUrl, order)
    ensures IsTable(hits + [h], AddHit(byUrl, h), if h.url in byUrl then order else order + [h.url])
  {
    assert (hits + [h])[..|hits|] == hits;
    Unseen(hits, h.url);
  }

  lemma HitsStep<T>(urlOf: T -> string, sets: seq<seq<T>>, weights: seq<real>, i: nat, r: nat)
    requires i < |sets| && r < |sets[i]|
    ensures var w := WeightAt(weights, i);
      var before := Hits(urlOf, sets[..i], weights) + SetHits(urlOf, sets[i][..r], w);
      var u := urlOf(sets[i][r]);
      Hits(urlOf, sets[..i], weights) + SetHits(urlOf, sets[i][..r + 1], w)
        == if u == "" then before else before + [Hit(u, sets[i][r], Rrf(w, r))]
  {
    assert sets[i][..r + 1][..r] == sets[i][..r];
  }

  lemma HitsNextSet<T>(urlOf: T -> string, sets: seq<seq<T>>, weights: seq<real>, i: nat)
    requires i < |sets|
    ensures Hits(urlOf, sets[..i + 1], weights)
         == Hits(urlOf, sets[..i], weights) + SetHits(urlOf, sets[i], WeightAt(weights, i))
  {
    assert sets[..i + 1][..i] == sets[..i];
  }

  // The two loops of FuseWRR and of fuseWRR.
  method BuildTable<T(!new)>(urlOf: T -> string, sets: seq<seq<T>>, weights: seq<real>)
    returns (byUrl: map<string, Entry<T>>, order: seq<string>)
    ensures IsTable(Hits(urlOf, sets, weights), byUrl, order)
  {
    byUrl, order := map[], [];
    for i := 0 to |sets|
      invariant IsTable(Hits(urlOf, sets[..i], weights), byUrl, order)
    {
      var w := 1.0;
      if i < |weights| {
        w := weights[i];
      }
      ghost var earlier := Hits(urlOf, sets[..i], weights);
      assert sets[i][..0] == [] && earlier + [] == earlier;
      for r := 0 to |sets[i]|
        invariant IsTable(earlier + SetHits(urlOf, sets[i][..r], w), byUrl, order)
      {
        HitsStep(urlOf, sets, weights, i, r);
        var u := urlOf(sets[i][r]);
        if u != "" {
          var h := Hit(u, sets[i][r], Rrf(w, r));
          TableStep(earlier + SetHits(urlOf, sets[i][..r], w), h, byUrl, order);
          if u !in byUrl {
            order := order + [u];
          }
          byUrl := AddHit(byUrl, h);
        }
      }
      assert sets[i][..|sets[i]|] == sets[i];
      HitsNextSet(urlOf, sets, weights, i);
    }
    assert sets[..|sets|] == sets;
  }

  // ---- FuseWRR

  function UrlOf(r: Result): string { r.url }
  function ScoreOf(r: Result): real { r.score }

  // One result per URL in first-seen order, with its fused score.
  function Merged(hits: seq<Hit<Result>>, order: seq<string>): seq<Result>
    requires forall u <- order :: FirstItem(hits, u).Some?
  {
    if order == [] then []
    else
      var u := order[|order| - 1];
      assert u in order;
      Merged(hits, order[..|order| - 1]) + [FirstItem(hits, u).value.(score := Gain(hits, u))]
  }

  function WebFused(sets: seq<seq<Result>>, weights: seq<real>): seq<Result> {
    var hits := Hits(UrlOf, sets, weights);
    AllSeen(hits);
    StableSort(Merged(hits, FirstSeen(hits)), ScoreOf)
  }

  lemma {:induction false} AllSeen<T(!new)>(hits: seq<Hit<T>>)
    ensures forall u <- FirstSeen(hits) :: FirstItem(hits, u).Some?
  {
    forall u | u in FirstSeen(hits) ensures FirstItem(hits, u).Some? { Unseen(hits, u); }
  }

  method FuseWRR(resultSets: seq<seq<Result>>, weights: seq<real>) returns (merged: seq<Result>)
    ensures merged == WebFused(resultSets, weights)
  {
    if |resultSets| == 0 {
      return [];
    }
    var byUrl, order := BuildTable(UrlOf, resultSets, weights);
    ghost var hits := Hits(UrlOf, resultSets, weights);
    AllSeen(hits);
    merged := [];
    for k := 0 to |order|
      invariant merged == Merged(hits, order[..k])
    {
      assert order[..k + 1][..k] == order[..k];
      var e := byUrl[order[k]];
      merged := merged + [e.item.(score := e.score)];
    }
    assert order[..|order|] == order;
    merged := StableSort(merged, ScoreOf);
  }

  // ---- The table agrees with the sums

  function UrlLists<T>(urlOf: T -> string, sets: seq<seq<T>>): seq<seq<string>> { MapSeq(s => MapSeq(urlOf, s), sets) }

  lemma {:induction false} GainConcat<T>(a: seq<Hit<T>>, b: seq<Hit<T>>, u: string)
    ensures Gain(a + b, u) == Gain(a, u) + Gain(b, u)
  {
    if b == [] {
      assert a + b == a;
    } else {
      GainConcat(a, b[..|b| - 1], u);
      assert (a + b)[..|a + b| - 1] == a + b[..|b| - 1];
    }
  }

  lemma {:induction false} MapFront<A, B>(f: A -> B, s: seq<A>)
    requires s != []
    ensures MapSeq(f, s)[..|s| - 1] == MapSeq(f, s[..|s| - 1])
  {}

  lemma {:induction false} SetGain<T>(urlOf: T -> string, items: seq<T>, w: real, u: string)
    requires u != ""
    ensures Gain(SetHits(urlOf, items, w), u) == SetScore(MapSeq(urlOf, items), w, u)
  {
    if items != [] {
      var n := |items| - 1;
      SetGain(urlOf, items[..n], w, u);
      MapFront(urlOf, items);
      var last := urlOf(items[n]);
      var tail := if last == "" then [] else [Hit(last, items[n], Rrf(w, n))];
      GainConcat(SetHits(urlOf, items[..n], w), tail, u);
      assert tail != [] ==> tail[..0] == [];
    }
  }

  // The accumulated score of a URL is the double sum.
  lemma {:induction false} GainIsUrlScore<T>(urlOf: T -> string, sets: seq<seq<T>>, weights: seq<real>, u: string)
    requires u != ""
    ensures Gain(Hits(urlOf, sets, weights), u) == UrlScore(UrlLists(urlOf, sets), weights, u)
  {
    if sets != [] {
      var n := |sets| - 1;
      GainIsUrlScore(urlOf, sets[..n], weights, u);
      SetGain(urlOf, sets[n], WeightAt(weights, n), u);
      GainConcat(Hits(urlOf, sets[..n], weights), SetHits(urlOf, sets[n], WeightAt(weights, n)), u);
      assert UrlLists(urlOf, sets)[..n] == UrlLists(urlOf, sets[..n]);
    }
  }

  predicate Occurs(sets: seq<seq<string>>, u: string) {
    exists i, r :: 0 <= i < |sets| && 0 <= r < |sets[i]| && sets[i][r] == u
  }

  predicate HitsHave<T>(hits: seq<Hit<T>>, u: string) { exists k :: 0 <= k < |hits| && hits[k].url == u }

  lemma {:induction false} SeenIsHit<T>(hits: seq<Hit<T>>, u: string)
    ensures u in FirstSeen(hits) <==> HitsHave(hits, u)
  {
    if hits != [] {
      var front, last := hits[..|hits| - 1], hits[|hits| - 1];
      SeenIsHit(front, u);
      assert hits == front + [last];
    }
  }

  lemma HaveConcat<T>(a: seq<Hit<T>>, b: seq<Hit<T>>, u: string)
    ensures HitsHave(a + b, u) <==> HitsHave(a, u) || HitsHave(b, u)
  {
    var c := a + b;
    if HitsHave(a, u) {
      var k :| 0 <= k < |a| && a[k].url == u;
      assert c[k] == a[k];
    }
    if HitsHave(b, u) {
      var k :| 0 <= k < |b| && b[k].url == u;
      assert c[|a| + k] == b[k];
    }
    if HitsHave(c, u) {
      var k :| 0 <= k < |c| && c[k].url == u;
      assert c[k] == if k < |a| then a[k] else b[k - |a|];
    }
  }

  lemma {:induction false} SetHitIsOccurrence<T>(urlOf: T -> string, items: seq<T>, w: real, u: string)
    ensures HitsHave(SetHits(urlOf, items, w), u) <==> u != "" && u in MapSeq(urlOf, items)
  {
    if items != [] {
      var n := |items| - 1;
      SetHitIsOccurrence(urlOf, items[..n], w, u);
      MapFront(urlOf, items);
      var m := MapSeq(urlOf, items);
      assert m == m[..n] + [m[n]];
      var last := urlOf(items[n]);
      var tail := if last == "" then [] else [Hit(last, items[n], Rrf(w, n))];
      HaveConcat(SetHits(urlOf, items[..n], w), tail, u);
      assert last != "" ==> tail[0].url == last;
    }
  }

  lemma {:induction false} SeenIsOccurrence<T>(urlOf: T -> string, sets: seq<seq<T>>, weights: seq<real>, u: string)
    ensures u in FirstSeen(Hits(urlOf, sets, weights)) <==> u != "" && Occurs(UrlLists(urlOf, sets), u)
  {
    SeenIsHit(Hits(urlOf, sets, weights), u);
    if sets != [] {
      var n := |sets| - 1;
      var a, b := Hits(urlOf, sets[..n], weights), SetHits(urlOf, sets[n], WeightAt(weights, n));
      SeenIsOccurrence(urlOf, sets[..n], weights, u);
      SeenIsHit(a, u);
      SetHitIsOccurrence(urlOf, sets[n], WeightAt(weights, n), u);
      var all, front := UrlLists(urlOf, sets), UrlLists(urlOf, sets[..n]);
      assert all == front + [MapSeq(urlOf, sets[n])];
      HaveConcat(a, b, u);
      OccursLast(front, MapSeq(urlOf, sets[n]), u);
    }
  }

  lemma OccursLast(front: seq<seq<string>>, last: seq<string>, u: string)
    ensures Occurs(front + [last], u) <==> Occurs(front, u) || u in last
  {
    var all := front + [last];
    if Occurs(front, u) {
      var i, r :| 0 <= i < |front| && 0 <= r < |front[i]| && front[i][r] == u;
      assert all[i][r] == u;
    }
    if u in last {
      var r :| 0 <= r < |last| && last[r] == u;
      assert all[|front|][r] == u;
    }
  }

  lemma {:induction false} FirstSeenDistinct<T>(hits: seq<Hit<T>>)
    ensures Distinct(FirstSeen(hits))
  {
    if hits != [] {
      var seen, u := FirstSeen(hits[..|hits| - 1]), hits[|hits| - 1].url;
      FirstSeenDistinct(hits[..|hits| - 1]);
      if u !in seen {
        forall p | 0 <= p < |seen| ensures seen[p] != u { assert seen[p] in seen; }
      }
    }
  }

  // Where a URL stands in the first-seen order.
  function Position(order: seq<string>, u: string): int {
    if order == [] then 0 else if order[0] == u then 0 else 1 + Position(order[1..], u)
  }

  lemma {:induction false} PositionAt(order: seq<string>, k: nat)
    requires k < |order| && Distinct(order)
    ensures Position(order, order[k]) == k
  {
    if k > 0 {
      assert order[0] != order[k];
      PositionAt(order[1..], k - 1);
    }
  }

  lemma {:induction false} MergedAt(hits: seq<Hit<Result>>, order: seq<string>, k: nat)
    requires forall u <- order :: FirstItem(hits, u).Some?
    requires k < |order|
    ensures |Merged(hits, order)| == |order|
    ensures FirstItem(hits, order[k]).Some?
    ensures Merged(hits, order)[k] == FirstItem(hits, order[k]).value.(score := Gain(hits, order[k]))
  {
    assert order[k] in order;
    if k < |order| - 1 {
      MergedAt(hits, order[..|order| - 1], k);
    } else if |order| > 1 {
      MergedAt(hits, order[..|order| - 1], 0);
    }
  }

  // Every occurrence carries the URL of its item, so the item a URL was first
  // seen with has that URL.
  ghost predicate CarryUrls<T>(urlOf: T -> string, hits: seq<Hit<T>>) {
    forall k :: 0 <= k < |hits| ==> urlOf(hits[k].item) == hits[k].url
  }

  lemma {:induction false} FirstItemUrl<T>(urlOf: T -> string, hits: seq<Hit<T>>, u: string)
    requires CarryUrls(urlOf, hits)
    ensures FirstItem(hits, u).Some? ==> urlOf(FirstItem(hits, u).value) == u
  {
    if hits != [] { FirstItemUrl(urlOf, hits[..|hits| - 1], u); }
  }

  lemma {:induction false} HitUrls<T>(urlOf: T -> string, sets: seq<seq<T>>, weights: seq<real>)
    ensures CarryUrls(urlOf, Hits(urlOf, sets, weights))
  {
    if sets != [] {
      var n := |sets| - 1;
      HitUrls(urlOf, sets[..n], weights);
      SetHitUrls(urlOf, sets[n], WeightAt(weights, n));
    }
  }

  lemma {:induction false} SetHitUrls<T>(urlOf: T -> string, items: seq<T>, w: real)
    ensures CarryUrls(urlOf, SetHits(urlOf, items, w))
  {
    if items != [] { SetHitUrls(urlOf, items[..|items| - 1], w); }
  }

  // ---- Main results

  // A fused entry: first-seen metadata under the fused score.
  ghost predicate IsFusedEntry(sets: seq<seq<Result>>, weights: seq<real>, r: Result) {
    var hits := Hits(UrlOf, sets, weights);
    && r.url != "" && Occurs(UrlLists(UrlOf, sets), r.url)
    && FirstItem(hits, r.url).Some?
    && r == FirstItem(hits, r.url).value.(score := UrlScore(UrlLists(UrlOf, sets), weights, r.url))
  }

  lemma MergedEntry(sets: seq<seq<Result>>, weights: seq<real>, k: nat)
    requires k < |FirstSeen(Hits(UrlOf, sets, weights))|
    ensures var hits := Hits(UrlOf, sets, weights);
      var order := FirstSeen(hits);
      && (forall u <- order :: FirstItem(hits, u).Some?)
      && |Merged(hits, order)| == |order|
      && Merged(hits, order)[k].url == order[k]
      && IsFusedEntry(sets, weights, Merged(hits, order)[k])
  {
    var hits := Hits(UrlOf, sets, weights);
    var order := FirstSeen(hits);
    AllSeen(hits);
    MergedAt(hits, order, k);
    HitUrls(UrlOf, sets, weights);
    FirstItemUrl(UrlOf, hits, order[k]);
    SeenIsOccurrence(UrlOf, sets, weights, order[k]);
    assert order[k] in order;
    GainIsUrlScore(UrlOf, sets, weights, order[k]);
  }

  // FuseWRR lists every distinct non-empty URL once, with the metadata of its
  // first occurrence and the double-sum score, by descending score with ties in
  // first-seen order.
  lemma FusionMeaning(sets: seq<seq<Result>>, weights: seq<real>)
    ensures var out := WebFused(sets, weights);
      var order := FirstSeen(Hits(UrlOf, sets, weights));
      && (forall r <- out :: IsFusedEntry(sets, weights, r))
      && (forall u :: u != "" && Occurs(UrlLists(UrlOf, sets), u) ==> exists r <- out :: r.url == u)
      && (forall p, q :: 0 <= p < q < |out| ==>
            && out[p].url != out[q].url
            && (out[p].score > out[q].score
                || (out[p].score == out[q].score && Position(order, out[p].url) < Position(order, out[q].url))))
  {
    var hits := Hits(UrlOf, sets, weights);
    var order := FirstSeen(hits);
    AllSeen(hits);
    var merged := Merged(hits, order);
    var out := WebFused(sets, weights);
    SortMembers(merged, ScoreOf);
    MergedLength(hits, order);
    forall r | r in out ensures IsFusedEntry(sets, weights, r) {
      SameMembers(out, merged, r);
      var k :| 0 <= k < |merged| && merged[k] == r;
      MergedEntry(sets, weights, k);
    }
    forall u | u != "" && Occurs(UrlLists(UrlOf, sets), u) ensures exists r <- out :: r.url == u {
      SeenIsOccurrence(UrlOf, sets, weights, u);
      var k :| 0 <= k < |order| && order[k] == u;
      MergedEntry(sets, weights, k);
      SameMembers(out, merged, merged[k]);
    }
    var index := (r: Result) => Position(order, r.url);
    FirstSeenDistinct(hits);
    forall p, q | 0 <= p < q < |merged| ensures index(merged[p]) < index(merged[q]) {
      MergedEntry(sets, weights, p);
      MergedEntry(sets, weights, q);
      PositionAt(order, p);
      PositionAt(order, q);
    }
    SortOrdered(merged, ScoreOf, index);
    forall p, q | 0 <= p < q < |out| ensures Before(out[p], out[q], ScoreOf, index) && out[p].url != out[q].url {
      assert out[p] in out && out[q] in out;
    }
  }

  lemma {:induction false} MergedLength(hits: seq<Hit<Result>>, order: seq<string>)
    requires forall u <- order :: FirstItem(hits, u).Some?
    ensures |Merged(hits, order)| == |order|
  {
    if order != [] { MergedAt(hits, order, 0); }
  }

  // ---- Conservation

  function GainOf<T>(h: Hit<T>): real { h.gain }

  function SumGains<T>(hits: seq<Hit<T>>, order: seq<string>): real {
    if order == [] then 0.0 else SumGains(hits, order[..|order| - 1]) + Gain(hits, order[|order| - 1])
  }

  lemma {:induction false} SumGainsStep<T>(hits: seq<Hit<T>>, h: Hit<T>, order: seq<string>)
    requires Distinct(order)
    ensures SumGains(hits + [h], order) == SumGains(hits, order) + (if h.url in order then h.gain else 0.0)
  {
    if order != [] {
      var front := order[..|order| - 1];
      assert order == front + [order[|order| - 1]];
      SumGainsStep(hits, h, front);
      assert (hits + [h])[..|hits|] == hits;
    }
  }

  lemma {:induction false} GainsArePartitioned<T>(hits: seq<Hit<T>>)
    ensures SumGains(hits, FirstSeen(hits)) == RealTotal(GainOf, hits)
  {
    if hits != [] {
      var front, h := hits[..|hits| - 1], hits[|hits| - 1];
      assert hits == front + [h];
      GainsArePartitioned(front);
      PartitionStep(front, h);
    }
  }

  lemma PartitionStep<T>(front: seq<Hit<T>>, h: Hit<T>)
    ensures SumGains(front + [h], FirstSeen(front + [h])) == SumGains(front, FirstSeen(front)) + h.gain
  {
    var hits, seen := front + [h], FirstSeen(front);
    assert hits[..|front|] == front;
    FirstSeenDistinct(front);
    SumGainsStep(front, h, seen);
    if h.url !in seen {
      Unseen(front, h.url);
      assert (seen + [h.url])[..|seen|] == seen;
    }
  }

  lemma {:induction false} SetHitsTotal<T>(urlOf: T -> string, items: seq<T>, w: real)
    ensures RealTotal(GainOf, SetHits(urlOf, items, w)) == SetTotal(MapSeq(urlOf, items), w)
  {
    if items != [] {
      var n := |items| - 1;
      SetHitsTotal(urlOf, items[..n], w);
      MapFront(urlOf, items);
      var front := SetHits(urlOf, items[..n], w);
      if urlOf(items[n]) != "" {
        var h := Hit(urlOf(items[n]), items[n], Rrf(w, n));
        assert (front + [h])[..|front|] == front;
      } else {
        assert front + [] == front;
      }
    }
  }

  lemma {:induction false} HitsTotal<T>(urlOf: T -> string, sets: seq<seq<T>>, weights: seq<real>)
    ensures RealTotal(GainOf, Hits(urlOf, sets, weights)) == GrandTotal(UrlLists(urlOf, sets), weights)
  {
    if sets != [] {
      var n := |sets| - 1;
      HitsTotal(urlOf, sets[..n], weights);
      SetHitsTotal(urlOf, sets[n], WeightAt(weights, n));
      RealTotalConcat(GainOf, Hits(urlOf, sets[..n], weights), SetHits(urlOf, sets[n], WeightAt(weights, n)));
      assert UrlLists(urlOf, sets)[..n] == UrlLists(urlOf, sets[..n]);
    }
  }

  lemma {:induction false} MergedTotal(hits: seq<Hit<Result>>, order: seq<string>)
    requires forall u <- order :: FirstItem(hits, u).Some?
    ensures RealTotal(ScoreOf, Merged(hits, order)) == SumGains(hits, order)
  {
    if order != [] {
      assert order[|order| - 1] in order;
      var front := order[..|order| - 1];
      MergedTotal(hits, front);
      assert Merged(hits, order)[..|Merged(hits, front)|] == Merged(hits, front);
    }
  }

  // No score is lost or invented: the fused scores sum to the contributions of
  // all occurrences of non-empty URLs.
  lemma ScoreConserved(sets: seq<seq<Result>>, weights: seq<real>)
    ensures RealTotal(ScoreOf, WebFused(sets, weights)) == GrandTotal(UrlLists(UrlOf, sets), weights)
  {
    var hits := Hits(UrlOf, sets, weights);
    AllSeen(hits);
    SortMembers(Merged(hits, FirstSeen(hits)), ScoreOf);
    RealTotalPermuted(ScoreOf, WebFused(sets, weights), Merged(hits, FirstSeen(hits)));
    MergedTotal(hits, FirstSeen(hits));
    GainsArePartitioned(hits);
    HitsTotal(UrlOf, sets, weights);
  }

  // ---- The order of equally weighted sets does not matter

  predicate EquallyWeighted(n: nat, weights: seq<real>, w: real) {
    forall i :: 0 <= i < n ==> w == if i < |weights| then weights[i] else 1.0
  }

  lemma {:induction false} ScoreAsTotal(sets: seq<seq<string>>, weights: seq<real>, w: real, u: string,
                                        f: seq<string> -> real)
    requires EquallyWeighted(|sets|, weights, w) && forall s :: f(s) == SetScore(s, w, u)
    ensures UrlScore(sets, weights, u) == RealTotal(f, sets)
  {
    if sets != [] { ScoreAsTotal(sets[..|sets| - 1], weights, w, u, f); }
  }

  lemma {:induction false} ScorePermuted(sets: seq<seq<string>>, others: seq<seq<string>>, weights: seq<real>,
                                         w: real, u: string)
    requires EquallyWeighted(|sets|, weights, w) && multiset(sets) == multiset(others)
    ensures UrlScore(sets, weights, u) == UrlScore(others, weights, u)
  {
    assert |multiset(sets)| == |sets| && |multiset(others)| == |others|;
    var f := (s: seq<string>) => SetScore(s, w, u);
    ScoreAsTotal(sets, weights, w, u, f);
    ScoreAsTotal(others, weights, w, u, f);
    RealTotalPermuted(f, sets, others);
  }

  // With equal weights, permuting the result sets changes no URL's score.
  lemma FusedScorePermuted(sets: seq<seq<Result>>, others: seq<seq<Result>>, weights: seq<real>, w: real, r: Result,
                           q: Result)
    requires EquallyWeighted(|sets|, weights, w) && multiset(sets) == multiset(others)
    requires r in WebFused(sets, weights) && q in WebFused(others, weights) && r.url == q.url
    ensures r.score == q.score
  {
    FusionMeaning(sets, weights);
    FusionMeaning(others, weights);
    UrlListsPermuted(sets, others);
    ScorePermuted(UrlLists(UrlOf, sets), UrlLists(UrlOf, others), weights, w, r.url);
  }

  lemma UrlListsPermuted(sets: seq<seq<Result>>, others: seq<seq<Result>>)
    requires multiset(sets) == multiset(others)
    ensures multiset(UrlLists(UrlOf, sets)) == multiset(UrlLists(UrlOf, others))
  {
    var f := (s: seq<Result>) => MapSeq(UrlOf, s);
    MapPermuted(f, sets, others);
    assert UrlLists(UrlOf, sets) == MapSeq(f, sets) && UrlLists(UrlOf, others) == MapSeq(f, others);
  }

  // ---- The image twin

  function ImageUrlOf(r: ImageResult): string { r.url }

  function ImageItems(hits: seq<Hit<ImageResult>>, order: seq<string>): seq<ImageResult>
    requires forall u <- order :: FirstItem(hits, u).Some?
  {
    if order == [] then []
    else
      assert order[|order| - 1] in order;
      ImageItems(hits, order[..|order| - 1]) + [FirstItem(hits, order[|order| - 1]).value]
  }

  function ImageKey(hits: seq<Hit<ImageResult>>): ImageResult -> real { (r: ImageResult) => Gain(hits, r.url) }

  function ImageFused(sets: seq<seq<ImageResult>>): seq<ImageResult> {
    var hits := Hits(ImageUrlOf, sets, []);
    AllSeen(hits);
    StableSort(ImageItems(hits, FirstSeen(hits)), ImageKey(hits))
  }

  // fuseWRR of imagesearch: unit weights, and the scores stay in the table.
  method FuseImages(resultSets: seq<seq<ImageResult>>) returns (merged: seq<ImageResult>)
    ensures merged == ImageFused(resultSets)
  {
    if |resultSets| == 0 {
      return [];
    }
    var byUrl, order := BuildTable(ImageUrlOf, resultSets, []);
    ghost var hits := Hits(ImageUrlOf, resultSets, []);
    AllSeen(hits);
    merged := [];
    for k := 0 to |order|
      invariant merged == ImageItems(hits, order[..k])
    {
      assert order[..k + 1][..k] == order[..k];
      merged := merged + [byUrl[order[k]].item];
    }
    assert order[..|order|] == order;
    var key := (r: ImageResult) => if r.url in byUrl then byUrl[r.url].score else 0.0;
    SameKey(merged, key, ImageKey(hits), hits, byUrl, order);
    merged := StableSort(merged, key);
  }

  lemma SameKey(items: seq<ImageResult>, a: ImageResult -> real, b: ImageResult -> real,
                hits: seq<Hit<ImageResult>>, byUrl: map<string, Entry<ImageResult>>, order: seq<string>)
    requires IsTable(hits, byUrl, order) && b == ImageKey(hits)
    requires forall r :: a(r) == if r.url in byUrl then byUrl[r.url].score else 0.0
    ensures StableSort(items, a) == StableSort(items, b)
  {
    forall r | r in items ensures a(r) == b(r) { Unseen(hits, r.url); }
    SortCongruent(items, a, b);
  }

  // Web and image occurrences at the same places count the same.
  ghost predicate SameHits<A, B>(a: seq<Hit<A>>, b: seq<Hit<B>>) {
    |a| == |b| && forall k :: 0 <= k < |a| ==> a[k].url == b[k].url && a[k].gain == b[k].gain
  }

  lemma {:induction false} SameTable<A, B>(a: seq<Hit<A>>, b: seq<Hit<B>>, u: string)
    requires SameHits(a, b)
    ensures FirstSeen(a) == FirstSeen(b) && Gain(a, u) == Gain(b, u)
  {
    if a != [] { SameTable(a[..|a| - 1], b[..|b| - 1], u); }
  }

  lemma {:induction false} SameSetHits<A, B>(fa: A -> string, fb: B -> string, a: seq<A>, b: seq<B>, w: real)
    requires MapSeq(fa, a) == MapSeq(fb, b)
    ensures SameHits(SetHits(fa, a, w), SetHits(fb, b, w))
  {
    assert |a| == |b|;
    if a != [] {
      var n := |a| - 1;
      MapFront(fa, a);
      MapFront(fb, b);
      SameSetHits(fa, fb, a[..n], b[..n], w);
      assert MapSeq(fa, a)[n] == MapSeq(fb, b)[n];
      SameHitsStep(SetHits(fa, a[..n], w), SetHits(fb, b[..n], w), fa(a[n]), a[n], b[n], Rrf(w, n));
    }
  }

  lemma SameHitsStep<A, B>(a: seq<Hit<A>>, b: seq<Hit<B>>, u: string, x: A, y: B, gain: real)
    requires SameHits(a, b)
    ensures SameHits(a + [Hit(u, x, gain)], b + [Hit(u, y, gain)])
  {}

  lemma {:induction false} SameAllHits<A, B>(fa: A -> string, fb: B -> string, a: seq<seq<A>>, b: seq<seq<B>>,
                                             weights: seq<real>)
    requires UrlLists(fa, a) == UrlLists(fb, b)
    ensures SameHits(Hits(fa, a, weights), Hits(fb, b, weights))
  {
    assert |a| == |b|;
    if a != [] {
      var n := |a| - 1;
      assert UrlLists(fa, a)[..n] == UrlLists(fa, a[..n]) && UrlLists(fb, b)[..n] == UrlLists(fb, b[..n]);
      SameAllHits(fa, fb, a[..n], b[..n], weights);
      assert UrlLists(fa, a)[n] == UrlLists(fb, b)[n];
      SameSetHits(fa, fb, a[n], b[n], WeightAt(weights, n));
    }
  }

  lemma {:induction false} ImageItemsUrls(hits: seq<Hit<ImageResult>>, order: seq<string>)
    requires forall u <- order :: FirstItem(hits, u).Some?
    requires CarryUrls(ImageUrlOf, hits)
    ensures MapSeq(ImageUrlOf, ImageItems(hits, order)) == order
  {
    if order != [] {
      var front, u := order[..|order| - 1], order[|order| - 1];
      ImageItemsUrls(hits, front);
      assert u in order;
      FirstItemUrl(ImageUrlOf, hits, u);
      MapAppend(ImageUrlOf, ImageItems(hits, front), FirstItem(hits, u).value);
    }
  }

  lemma {:induction false} MapAppend<A, B>(f: A -> B, s: seq<A>, x: A)
    ensures MapSeq(f, s + [x]) == MapSeq(f, s) + [f(x)]
  {
    assert (s + [x])[..|s|] == s;
  }

  // On sets with the same URLs, the image fusion returns the URLs in the same
  // order as the unweighted web fusion.
  lemma TwinsAgree(web: seq<seq<Result>>, images: seq<seq<ImageResult>>)
    requires UrlLists(UrlOf, web) == UrlLists(ImageUrlOf, images)
    ensures MapSeq(UrlOf, WebFused(web, [])) == MapSeq(ImageUrlOf, ImageFused(images))
  {
    var hw, hi := Hits(UrlOf, web, []), Hits(ImageUrlOf, images, []);
    SameAllHits(UrlOf, ImageUrlOf, web, images, []);
    SameTable(hw, hi, "");
    AllSeen(hw);
    AllSeen(hi);
    var order := FirstSeen(hw);
    var key := (u: string) => Gain(hw, u);
    MergedUrls(web, order);
    HitUrls(ImageUrlOf, images, []);
    ImageItemsUrls(hi, order);
    forall r | r in Merged(hw, order) ensures ScoreOf(r) == key(UrlOf(r)) { MergedScore(web, r); }
    SortMap(UrlOf, Merged(hw, order), ScoreOf, key);
    forall r | r in ImageItems(hi, order) ensures ImageKey(hi)(r) == key(ImageUrlOf(r)) { SameTable(hw, hi, r.url); }
    SortMap(ImageUrlOf, ImageItems(hi, order), ImageKey(hi), key);
  }

  lemma MergedUrls(web: seq<seq<Result>>, order: seq<string>)
    requires order == FirstSeen(Hits(UrlOf, web, []))
    ensures forall u <- order :: FirstItem(Hits(UrlOf, web, []), u).Some?
    ensures MapSeq(UrlOf, Merged(Hits(UrlOf, web, []), order)) == order
  {
    var hits := Hits(UrlOf, web, []);
    AllSeen(hits);
    MergedLength(hits, order);
    forall k | 0 <= k < |order| ensures Merged(hits, order)[k].url == order[k] { MergedEntry(web, [], k); }
  }

  lemma MergedScore(web: seq<seq<Result>>, r: Result)
    requires var hits := Hits(UrlOf, web, []);
      && (forall u <- FirstSeen(hits) :: FirstItem(hits, u).Some?)
      && r in Merged(hits, FirstSeen(hits))
    ensures r.score == Gain(Hits(UrlOf, web, []), r.url)
  {
    var hits := Hits(UrlOf, web, []);
    var order := FirstSeen(hits);
    MergedLength(hits, order);
    var k :| 0 <= k < |order| && Merged(hits, order)[k] == r;
    MergedEntry(web, [], k);
    MergedAt(hits, order, k);
  }
}
