/** Near-duplicate removal (websearch/dedup.go): the pairwise sweep for any
    similarity, then with cosine similarity of word counts. */
module Dedup {
  import opened SearchTypes
  import opened WordVectors
  import CosineLaws

  // ---- The sweep

  // i is strictly better than j: a higher score, or the same score earlier.
  predicate Better(scores: seq<real>, i: nat, j: nat)
    requires i < |scores| && j < |scores|
  {
    scores[i] > scores[j] || (scores[i] == scores[j] && i < j)
  }

  // The similarity of a pair, asked the way the sweep asks: lower index first.
  function PairSim(sim: (nat, nat) -> real, i: nat, j: nat): real {
    if i < j then sim(i, j) else sim(j, i)
  }

  // j is removed in favour of i.
  predicate Supersedes(scores: seq<real>, sim: (nat, nat) -> real, threshold: real, i: nat, j: nat) {
    i < |scores| && j < |scores| && Better(scores, i, j) && PairSim(sim, i, j) > threshold
  }

  ghost predicate Justified(scores: seq<real>, sim: (nat, nat) -> real, threshold: real, removed: seq<bool>) {
    |removed| == |scores| &&
    forall j :: 0 <= j < |scores| && removed[j] ==>
      exists i :: 0 <= i < |scores| && Supersedes(scores, sim, threshold, i, j)
  }

  // Among the survivors no pair with its first index below `upTo` is similar.
  ghost predicate Separated(sim: (nat, nat) -> real, threshold: real, removed: seq<bool>, upTo: nat) {
    forall i, j :: 0 <= i < j < |removed| && i < upTo && !removed[i] && !removed[j] ==> sim(i, j) <= threshold
  }

  // A chain of supersessions from a survivor down to j.
  predicate Chain(scores: seq<real>, sim: (nat, nat) -> real, threshold: real, path: seq<nat>, removed: seq<bool>,
                  j: nat) {
    && |removed| == |scores| && path != [] && path[|path| - 1] == j
    && (forall k :: 0 <= k < |path| ==> path[k] < |scores|)
    && (forall k :: 0 <= k < |path| - 1 ==> Supersedes(scores, sim, threshold, path[k], path[k + 1]))
    && !removed[path[0]]
  }

  // How many results are better than j.
  function BetterSet(scores: seq<real>, j: nat): set<nat>
    requires j < |scores|
  {
    set i | 0 <= i < |scores| && Better(scores, i, j)
  }

  lemma BetterShrinks(scores: seq<real>, i: nat, j: nat)
    requires i < |scores| && j < |scores| && Better(scores, i, j)
    ensures BetterSet(scores, i) < BetterSet(scores, j)
  {
    assert i in BetterSet(scores, j) && i !in BetterSet(scores, i);
  }

  // Every result, removed or not, reaches a survivor by over-threshold pairs,
  // each strictly better than the last.
  lemma {:induction false} ReachesSurvivor(scores: seq<real>, sim: (nat, nat) -> real, threshold: real,
                                           removed: seq<bool>, j: nat)
    returns (path: seq<nat>)
    requires Justified(scores, sim, threshold, removed) && j < |scores|
    ensures Chain(scores, sim, threshold, path, removed, j)
    decreases BetterSet(scores, j)
  {
    if !removed[j] {
      path := [j];
    } else {
      var i :| 0 <= i < |scores| && Supersedes(scores, sim, threshold, i, j);
      BetterShrinks(scores, i, j);
      var up := ReachesSurvivor(scores, sim, threshold, removed, i);
      path := up + [j];
    }
  }

  ghost predicate Supported(scores: seq<real>, sim: (nat, nat) -> real, threshold: real, removed: seq<bool>, j: nat) {
    exists path: seq<nat> :: Chain(scores, sim, threshold, path, removed, j)
  }

  // b is the earliest result of the top score.
  ghost predicate Tops(scores: seq<real>, b: nat) {
    b < |scores| && forall i :: 0 <= i < |scores| && i != b ==> Better(scores, b, i)
  }

  // The earliest result of the top score is never removed.
  lemma BestSurvives(scores: seq<real>, sim: (nat, nat) -> real, threshold: real, removed: seq<bool>, b: nat)
    requires Justified(scores, sim, threshold, removed) && Tops(scores, b)
    ensures !removed[b]
  {
    forall i | 0 <= i < |scores| ensures !Supersedes(scores, sim, threshold, i, b) {
      assert i == b || Better(scores, b, i);
    }
  }

  // Without a similar pair nothing is removed.
  lemma {:induction false} NothingSimilar(scores: seq<real>, sim: (nat, nat) -> real, threshold: real,
                                          removed: seq<bool>)
    requires Justified(scores, sim, threshold, removed)
    requires forall i, j :: 0 <= i < j < |scores| ==> sim(i, j) <= threshold
    ensures forall j :: 0 <= j < |scores| ==> !removed[j]
  {
    forall i, j | 0 <= i < |scores| && 0 <= j < |scores| ensures !Supersedes(scores, sim, threshold, i, j) {}
  }

  // ---- The sweep as a function, and as the loops

  // Comparing result i with j, j + 1, ... until i loses.
  function Inner(scores: seq<real>, sim: (nat, nat) -> real, threshold: real, mask: seq<bool>, i: nat,
                 j: nat): seq<bool>
    requires |mask| == |scores| && i < |scores| && j <= |scores|
    ensures |Inner(scores, sim, threshold, mask, i, j)| == |scores|
    decreases |scores| - j
  {
    if j == |scores| then mask
    else if mask[j] || sim(i, j) <= threshold then Inner(scores, sim, threshold, mask, i, j + 1)
    else if scores[i] >= scores[j] then Inner(scores, sim, threshold, mask[j := true], i, j + 1)
    else mask[i := true]
  }

  // The rounds of results i, i + 1, ...
  function Outer(scores: seq<real>, sim: (nat, nat) -> real, threshold: real, mask: seq<bool>, i: nat): seq<bool>
    requires |mask| == |scores| && i <= |scores|
    ensures |Outer(scores, sim, threshold, mask, i)| == |scores|
    decreases |scores| - i
  {
    if i == |scores| then mask
    else if mask[i] then Outer(scores, sim, threshold, mask, i + 1)
    else Outer(scores, sim, threshold, Inner(scores, sim, threshold, mask, i, i + 1), i + 1)
  }

  function Sweep(scores: seq<real>, sim: (nat, nat) -> real, threshold: real): (removed: seq<bool>)
    ensures |removed| == |scores|
  {
    Outer(scores, sim, threshold, seq(|scores|, _ => false), 0)
  }

  lemma JustifiedMark(scores: seq<real>, sim: (nat, nat) -> real, threshold: real, mask: seq<bool>, i: nat, j: nat)
    requires Justified(scores, sim, threshold, mask) && Supersedes(scores, sim, threshold, i, j)
    ensures Justified(scores, sim, threshold, mask[j := true])
  {}

  lemma SeparatedMark(sim: (nat, nat) -> real, threshold: real, mask: seq<bool>, upTo: nat, j: nat)
    requires Separated(sim, threshold, mask, upTo) && j < |mask|
    ensures Separated(sim, threshold, mask[j := true], upTo)
  {}

  // The round of i, before it is compared with j.
  ghost predicate InRound(scores: seq<real>, sim: (nat, nat) -> real, threshold: real, mask: seq<bool>, i: nat,
                          j: nat) {
    && Justified(scores, sim, threshold, mask) && Separated(sim, threshold, mask, i)
    && i < j <= |scores| == |mask| && !mask[i]
    && (forall k :: i < k < j && !mask[k] ==> sim(i, k) <= threshold)
  }

  lemma RoundMarks(scores: seq<real>, sim: (nat, nat) -> real, threshold: real, mask: seq<bool>, i: nat, j: nat)
    requires InRound(scores, sim, threshold, mask, i, j) && j < |scores|
    requires sim(i, j) > threshold && scores[i] >= scores[j]
    ensures InRound(scores, sim, threshold, mask[j := true], i, j + 1)
  {
    JustifiedMark(scores, sim, threshold, mask, i, j);
    SeparatedMark(sim, threshold, mask, i, j);
  }

  // When i loses, or has met all the others, it is separated from the rest.
  lemma RoundEnds(scores: seq<real>, sim: (nat, nat) -> real, threshold: real, mask: seq<bool>, i: nat, j: nat)
    requires InRound(scores, sim, threshold, mask, i, j)
    ensures j == |scores| ==> Separated(sim, threshold, mask, i + 1)
    ensures j < |scores| && sim(i, j) > threshold && scores[i] < scores[j] ==>
      Justified(scores, sim, threshold, mask[i := true]) && Separated(sim, threshold, mask[i := true], i + 1)
  {
    if j < |scores| && sim(i, j) > threshold && scores[i] < scores[j] {
      JustifiedMark(scores, sim, threshold, mask, j, i);
      SeparatedMark(sim, threshold, mask, i, i);
    }
  }

  // One round leaves every removal justified and separates i from the rest.
  lemma {:induction false} InnerSound(scores: seq<real>, sim: (nat, nat) -> real, threshold: real, mask: seq<bool>,
                                      i: nat, j: nat)
    requires InRound(scores, sim, threshold, mask, i, j)
    ensures var after := Inner(scores, sim, threshold, mask, i, j);
      Justified(scores, sim, threshold, after) && Separated(sim, threshold, after, i + 1)
    decreases |scores| - j
  {
    RoundEnds(scores, sim, threshold, mask, i, j);
    if j < |scores| {
      if mask[j] || sim(i, j) <= threshold {
        InnerSound(scores, sim, threshold, mask, i, j + 1);
      } else if scores[i] >= scores[j] {
        RoundMarks(scores, sim, threshold, mask, i, j);
        InnerSound(scores, sim, threshold, mask[j := true], i, j + 1);
      }
    }
  }

  // Before the round of i.
  ghost predicate Swept(scores: seq<real>, sim: (nat, nat) -> real, threshold: real, mask: seq<bool>, i: nat) {
    |mask| == |scores| && Justified(scores, sim, threshold, mask) && Separated(sim, threshold, mask, i)
  }

  lemma SweptNext(scores: seq<real>, sim: (nat, nat) -> real, threshold: real, mask: seq<bool>, i: nat)
    requires Swept(scores, sim, threshold, mask, i) && i < |scores|
    ensures mask[i] ==> Swept(scores, sim, threshold, mask, i + 1)
    ensures !mask[i] ==> Swept(scores, sim, threshold, Inner(scores, sim, threshold, mask, i, i + 1), i + 1)
  {
    if !mask[i] { InnerSound(scores, sim, threshold, mask, i, i + 1); }
  }

  lemma {:induction false} OuterSound(scores: seq<real>, sim: (nat, nat) -> real, threshold: real, mask: seq<bool>,
                                      i: nat)
    requires i <= |scores| && Swept(scores, sim, threshold, mask, i)
    ensures Swept(scores, sim, threshold, Outer(scores, sim, threshold, mask, i), |scores|)
    decreases |scores| - i
  {
    if i < |scores| {
      SweptNext(scores, sim, threshold, mask, i);
      var next := if mask[i] then mask else Inner(scores, sim, threshold, mask, i, i + 1);
      OuterSound(scores, sim, threshold, next, i + 1);
    }
  }

  // The mask of the sweep: every removed result is over the threshold with a
  // better one, and no two survivors are over the threshold with each other.
  lemma SweepSound(scores: seq<real>, sim: (nat, nat) -> real, threshold: real)
    ensures Justified(scores, sim, threshold, Sweep(scores, sim, threshold))
    ensures Separated(sim, threshold, Sweep(scores, sim, threshold), |scores|)
  {
    OuterSound(scores, sim, threshold, seq(|scores|, _ => false), 0);
  }

  // ---- When the worse of every pair goes

  // Places i and j are over the threshold with each other.
  predicate Over(sim: (nat, nat) -> real, threshold: real, i: nat, j: nat) {
    i != j && PairSim(sim, i, j) > threshold
  }

  predicate TransitiveOver(sim: (nat, nat) -> real, threshold: real, n: nat) {
    forall i, j, k :: 0 <= i < n && 0 <= j < n && 0 <= k < n ==>
      (i != k && Over(sim, threshold, i, j) && Over(sim, threshold, j, k) ==> Over(sim, threshold, i, k))
  }

  // Of every pair over the threshold the worse result is removed.
  predicate WorseRemoved(scores: seq<real>, sim: (nat, nat) -> real, threshold: real) {
    forall i, j :: 0 <= i < |scores| && 0 <= j < |scores| && Supersedes(scores, sim, threshold, i, j) ==>
      Sweep(scores, sim, threshold)[j]
  }

  // In a transitive relation the top of a chain is over the threshold with its end.
  lemma {:induction false} ChainOver(scores: seq<real>, sim: (nat, nat) -> real, threshold: real, path: seq<nat>,
                                     removed: seq<bool>, j: nat)
    requires TransitiveOver(sim, threshold, |scores|) && Chain(scores, sim, threshold, path, removed, j)
    ensures path[0] < |scores|
    ensures path[0] == j || (Better(scores, path[0], j) && Over(sim, threshold, path[0], j))
  {
    var n := |path| - 1;
    if n > 0 {
      var front := path[..n];
      var i := path[n - 1];
      assert Supersedes(scores, sim, threshold, i, path[n]) && Over(sim, threshold, i, j);
      forall k | 0 <= k < |front| - 1 ensures Supersedes(scores, sim, threshold, front[k], front[k + 1]) {
        assert Supersedes(scores, sim, threshold, path[k], path[k + 1]);
      }
      ChainOver(scores, sim, threshold, front, removed, i);
      assert Better(scores, path[0], j);
    }
  }

  lemma TransitiveRemovesWorse(scores: seq<real>, sim: (nat, nat) -> real, threshold: real, i: nat, j: nat)
    requires TransitiveOver(sim, threshold, |scores|) && Supersedes(scores, sim, threshold, i, j)
    ensures Sweep(scores, sim, threshold)[j]
  {
    var removed := Sweep(scores, sim, threshold);
    SweepSound(scores, sim, threshold);
    var path := ReachesSurvivor(scores, sim, threshold, removed, i);
    ChainOver(scores, sim, threshold, path, removed, i);
    var top := path[0];
    assert Over(sim, threshold, i, j);
    assert top != j && Over(sim, threshold, top, j);
    assert !removed[top];
  }

  // Scores for three places, the rest below them.
  function ThreeScores(n: nat, top: nat, mid: nat, low: nat): seq<real> {
    seq(n, i => if i == top then 3.0 else if i == mid then 2.0 else if i == low then 1.0 else 0.0)
  }

  // The sweep compares (a, b) before (c, d).
  predicate Before(a: int, b: int, c: int, d: int) { a < c || (a == c && b < d) }

  function Lower(i: nat, j: nat): nat { if i < j then i else j }

  function Upper(i: nat, j: nat): nat { if i < j then j else i }

  // Three places of which only the middle one is over the threshold with both
  // others, and is compared with the top one first.
  predicate Bridge(sim: (nat, nat) -> real, threshold: real, n: nat, top: nat, mid: nat, low: nat) {
    && top < n && mid < n && low < n && top != low
    && Over(sim, threshold, top, mid) && Over(sim, threshold, mid, low) && !Over(sim, threshold, top, low)
    && Before(Lower(top, mid), Upper(top, mid), Lower(mid, low), Upper(mid, low))
  }

  // As far as the comparison (r, p): the outer two are kept, and the middle one is
  // gone once it has met the top one.
  predicate Bridged(mask: seq<bool>, top: nat, mid: nat, low: nat, r: int, p: int)
    requires top < |mask| && mid < |mask| && low < |mask|
  {
    !mask[top] && !mask[low] && (Before(Lower(top, mid), Upper(top, mid), r, p) ==> mask[mid])
  }

  lemma {:induction false} InnerBridged(sim: (nat, nat) -> real, threshold: real, n: nat, top: nat, mid: nat, low: nat,
                                        mask: seq<bool>, r: nat, p: nat)
    requires Bridge(sim, threshold, n, top, mid, low) && |mask| == n && r < p <= n && !mask[r]
    requires Bridged(mask, top, mid, low, r, p)
    ensures Bridged(Inner(ThreeScores(n, top, mid, low), sim, threshold, mask, r, p), top, mid, low, r + 1, 0)
    decreases n - p
  {
    var scores := ThreeScores(n, top, mid, low);
    if p < n {
      if mask[p] || sim(r, p) <= threshold {
        InnerBridged(sim, threshold, n, top, mid, low, mask, r, p + 1);
      } else {
        assert Over(sim, threshold, r, p);
        if scores[r] >= scores[p] {
          InnerBridged(sim, threshold, n, top, mid, low, mask[p := true], r, p + 1);
        }
      }
    }
  }

  lemma {:induction false} OuterBridged(sim: (nat, nat) -> real, threshold: real, n: nat, top: nat, mid: nat, low: nat,
                                        mask: seq<bool>, r: nat)
    requires Bridge(sim, threshold, n, top, mid, low) && |mask| == n && r <= n
    requires Bridged(mask, top, mid, low, r, 0)
    ensures !Outer(ThreeScores(n, top, mid, low), sim, threshold, mask, r)[low]
    decreases n - r
  {
    if r < n {
      if mask[r] {
        OuterBridged(sim, threshold, n, top, mid, low, mask, r + 1);
      } else {
        InnerBridged(sim, threshold, n, top, mid, low, mask, r, r + 1);
        OuterBridged(sim, threshold, n, top, mid, low,
                     Inner(ThreeScores(n, top, mid, low), sim, threshold, mask, r, r + 1), r + 1);
      }
    }
  }

  // Then the lowest of the three survives its better neighbour.
  lemma BridgeKeepsWorse(sim: (nat, nat) -> real, threshold: real, n: nat, top: nat, mid: nat, low: nat)
    requires Bridge(sim, threshold, n, top, mid, low)
    ensures !WorseRemoved(ThreeScores(n, top, mid, low), sim, threshold)
  {
    var scores := ThreeScores(n, top, mid, low);
    OuterBridged(sim, threshold, n, top, mid, low, seq(n, _ => false), 0);
    assert Supersedes(scores, sim, threshold, mid, low);
    assert !Sweep(scores, sim, threshold)[low];
  }

  ghost predicate AlwaysRemovesWorse(sim: (nat, nat) -> real, threshold: real, n: nat) {
    forall scores: seq<real> :: |scores| == n ==> WorseRemoved(scores, sim, threshold)
  }

  // Whatever the scores, the worse result of every pair over the threshold is
  // removed, exactly when being over the threshold is transitive.
  lemma WorseRemovedExactly(sim: (nat, nat) -> real, threshold: real, n: nat)
    ensures AlwaysRemovesWorse(sim, threshold, n) <==> TransitiveOver(sim, threshold, n)
  {
    if TransitiveOver(sim, threshold, n) {
      forall scores: seq<real> | |scores| == n ensures WorseRemoved(scores, sim, threshold) {
        forall i, j | 0 <= i < n && 0 <= j < n && Supersedes(scores, sim, threshold, i, j)
          ensures Sweep(scores, sim, threshold)[j]
        {
          TransitiveRemovesWorse(scores, sim, threshold, i, j);
        }
      }
    } else {
      var i, j, k :| 0 <= i < n && 0 <= j < n && 0 <= k < n && i != k
        && Over(sim, threshold, i, j) && Over(sim, threshold, j, k) && !Over(sim, threshold, i, k);
      if Before(Lower(i, j), Upper(i, j), Lower(j, k), Upper(j, k)) {
        BridgeKeepsWorse(sim, threshold, n, i, j, k);
      } else {
        BridgeKeepsWorse(sim, threshold, n, k, j, i);
      }
    }
  }

  // ---- Cosine similarity of word counts

  // How often w occurs among the words.
  function Occurrences(words: seq<string>, w: string): nat {
    if words == [] then 0 else Occurrences(words[..|words| - 1], w) + (if words[|words| - 1] == w then 1 else 0)
  }

  // The bag of words of a text: how often each of its words occurs.
  function Bag(words: seq<string>): map<string, real> { map w | w in words :: Occurrences(words, w) as real }

  // tokenize, on the words of a text: every word with the number of its occurrences.
  method BagOfWords(words: seq<string>) returns (vec: map<string, real>)
    ensures vec == Bag(words)
    ensures forall w :: w in vec <==> w in words
    ensures forall w <- words :: vec[w] == multiset(words)[w] as real
  {
    vec := map[];
    for k := 0 to |words|
      invariant vec == Bag(words[..k])
    {
      BagStep(words, k);
      vec := vec[words[k] := WordWeight(vec, words[k]) + 1.0];
    }
    assert words[..|words|] == words;
    forall w | w in words ensures vec[w] == multiset(words)[w] as real { OccurrencesCount(words, w); }
  }

  lemma {:induction false} OccurrencesCount(words: seq<string>, w: string)
    ensures Occurrences(words, w) == multiset(words)[w]
  {
    if words != [] {
      OccurrencesCount(words[..|words| - 1], w);
      assert words == words[..|words| - 1] + [words[|words| - 1]];
    }
  }

  lemma {:induction false} Absent(words: seq<string>, w: string)
    requires w !in words
    ensures Occurrences(words, w) == 0
  {
    if words != [] { Absent(words[..|words| - 1], w); }
  }

  lemma BagStep(words: seq<string>, k: nat)
    requires k < |words|
    ensures Bag(words[..k + 1]) == Bag(words[..k])[words[k] := WordWeight(Bag(words[..k]), words[k]) + 1.0]
  {
    var before, w := words[..k], words[k];
    assert words[..k + 1] == before + [w];
    assert (before + [w])[..k] == before;
    if w !in before { Absent(before, w); }
  }

  ghost function SimOf(bags: seq<map<string, real>>, sqrt: real -> real): (nat, nat) -> real {
    (i: nat, j: nat) => if i < |bags| && j < |bags| then Cosine(bags[i], bags[j], sqrt) else 0.0
  }

  // The similarity is symmetric, so it does not matter which of the two comes first.
  lemma SimSymmetric(bags: seq<map<string, real>>, sqrt: real -> real, i: nat, j: nat)
    ensures SimOf(bags, sqrt)(i, j) == SimOf(bags, sqrt)(j, i)
  {
    if i < |bags| && j < |bags| { CosineSymmetric(bags[i], bags[j], sqrt); }
  }

  lemma SimAtMostOne(bags: seq<map<string, real>>, sqrt: real -> real, i: nat, j: nat)
    requires IsSqrt(sqrt) && forall k :: 0 <= k < |bags| ==> NonNegative(bags[k])
    ensures 0.0 <= SimOf(bags, sqrt)(i, j) <= 1.0
  {
    if i < |bags| && j < |bags| { CosineInUnitInterval(bags[i], bags[j], sqrt); }
  }

  // A threshold of one or more removes nothing.
  lemma ThresholdOfOne(scores: seq<real>, bags: seq<map<string, real>>, sqrt: real -> real, threshold: real)
    requires IsSqrt(sqrt) && forall k :: 0 <= k < |bags| ==> NonNegative(bags[k])
    requires threshold >= 1.0
    ensures forall j :: 0 <= j < |scores| ==> !Sweep(scores, SimOf(bags, sqrt), threshold)[j]
  {
    var sim := SimOf(bags, sqrt);
    forall i, j | 0 <= i < j < |scores| ensures sim(i, j) <= threshold { SimAtMostOne(bags, sqrt, i, j); }
    SweepSound(scores, sim, threshold);
    NothingSimilar(scores, sim, threshold, Sweep(scores, sim, threshold));
  }

  // It can fail: of three results scored 3, 2 and 1, each over the threshold with
  // the next only, the last survives its better neighbour.
  lemma LastSurvives(sim: (nat, nat) -> real, threshold: real)
    requires sim(0, 1) > threshold && sim(1, 2) > threshold && sim(0, 2) <= threshold
    ensures var scores := [3.0, 2.0, 1.0];
      Supersedes(scores, sim, threshold, 1, 2) && !Sweep(scores, sim, threshold)[2]
  {
    assert ThreeScores(3, 0, 1, 2) == [3.0, 2.0, 1.0];
    assert Bridge(sim, threshold, 3, 0, 1, 2);
    OuterBridged(sim, threshold, 3, 0, 1, 2, seq(3, _ => false), 0);
  }

  // For instance the texts "a b", "b c" and "c d", at a threshold of 0.4.
  lemma DuplicateSurvives(sqrt: real -> real)
    requires IsSqrt(sqrt)
    ensures var bags := [Bag(["a", "b"]), Bag(["b", "c"]), Bag(["c", "d"])];
      var scores, sim := [3.0, 2.0, 1.0], SimOf(bags, sqrt);
      Supersedes(scores, sim, 0.4, 1, 2) && !Sweep(scores, sim, 0.4)[2]
  {
    var bags := [Bag(["a", "b"]), Bag(["b", "c"]), Bag(["c", "d"])];
    var sim := SimOf(bags, sqrt);
    ThreeTexts(sqrt);
    assert sim(0, 1) == Cosine(bags[0], bags[1], sqrt);
    assert sim(1, 2) == Cosine(bags[1], bags[2], sqrt);
    assert sim(0, 2) == Cosine(bags[0], bags[2], sqrt);
    LastSurvives(sim, 0.4);
  }

  lemma ThreeTexts(sqrt: real -> real)
    requires IsSqrt(sqrt)
    ensures Cosine(Bag(["a", "b"]), Bag(["b", "c"]), sqrt) == 0.5
    ensures Cosine(Bag(["b", "c"]), Bag(["c", "d"]), sqrt) == 0.5
    ensures Cosine(Bag(["a", "b"]), Bag(["c", "d"]), sqrt) == 0.0
  {
    TwoWords("a", "b");
    TwoWords("b", "c");
    TwoWords("c", "d");
    HalfAlike("a", "b", "c", sqrt);
    HalfAlike("b", "c", "d", sqrt);
    NothingAlike("a", "b", "c", "d", sqrt);
  }

  function TwoWordBag(u: string, v: string): map<string, real> { map[u := 1.0, v := 1.0] }

  lemma TwoWords(u: string, v: string)
    requires u != v
    ensures Bag([u, v]) == TwoWordBag(u, v)
  {
    assert [u, v][..1] == [u] && [u][..0] == [];
    assert Occurrences([u], u) == 1 && Occurrences([u], v) == 0;
  }

  // The dot product with a bag of two words.
  lemma PairDot(u: string, v: string, b: map<string, real>)
    requires u != v
    ensures Dot(TwoWordBag(u, v), b) == WordWeight(b, u) + WordWeight(b, v)
  {
    var f := Product(TwoWordBag(u, v), b);
    SumTake({u, v}, f, u);
    SumTake({v}, f, v);
    assert TwoWordBag(u, v).Keys == {u, v} && {u, v} - {u} == {v} && {v} - {v} == {};
  }

  lemma HalfAlike(u: string, v: string, w: string, sqrt: real -> real)
    requires IsSqrt(sqrt) && u != v && v != w && u != w
    ensures Cosine(TwoWordBag(u, v), TwoWordBag(v, w), sqrt) == 0.5
  {
    PairDot(u, v, TwoWordBag(v, w));
    PairDot(u, v, TwoWordBag(u, v));
    PairDot(v, w, TwoWordBag(v, w));
    RootOfTwo(sqrt);
    assert Normalised(1.0, 2.0, 2.0, sqrt) == 0.5;
  }

  lemma NothingAlike(u: string, v: string, w: string, x: string, sqrt: real -> real)
    requires IsSqrt(sqrt) && u != v && w != x && u != w && u != x && v != w && v != x
    ensures Cosine(TwoWordBag(u, v), TwoWordBag(w, x), sqrt) == 0.0
  {
    PairDot(u, v, TwoWordBag(w, x));
    PairDot(u, v, TwoWordBag(u, v));
    PairDot(w, x, TwoWordBag(w, x));
    RootOfTwo(sqrt);
    assert Normalised(0.0, 2.0, 2.0, sqrt) == 0.0;
  }

  lemma RootOfTwo(sqrt: real -> real)
    requires IsSqrt(sqrt)
    ensures sqrt(2.0) * sqrt(2.0) == 2.0
  {}

  ghost predicate Pair(i: nat, j: nat) { true }

  // The sweep uses sim only through Compare; Pair keeps its definition out of
  // the loops.
  ghost predicate Measures(vecs: seq<map<string, real>>, sqrt: real -> real, sim: (nat, nat) -> real) {
    forall i, j {:trigger Pair(i, j)} :: Pair(i, j) ==> sim(i, j) == SimOf(vecs, sqrt)(i, j)
  }

  // What the sweep asks about two results, for an arbitrary similarity.
  method Compare(vecs: seq<map<string, real>>, sqrt: real -> real, i: nat, j: nat, ghost sim: (nat, nat) -> real)
    returns (c: real)
    requires i < |vecs| && j < |vecs| && Measures(vecs, sqrt, sim)
    ensures c == sim(i, j)
  {
    assert Pair(i, j);
    c := CosineSimilarity(vecs[i], vecs[j], sqrt);
  }

  // The inner loop of markDuplicates: result i against every later one.
  method MarkAgainst(scores: seq<real>, vecs: seq<map<string, real>>, sqrt: real -> real, threshold: real,
                     ghost sim: (nat, nat) -> real, removed: array<bool>, i: nat)
    requires |vecs| == |scores| == removed.Length && i < removed.Length && !removed[i]
    requires Measures(vecs, sqrt, sim)
    modifies removed
    ensures removed[..] == Inner(scores, sim, threshold, old(removed[..]), i, i + 1)
  {
    ghost var after := Inner(scores, sim, threshold, removed[..], i, i + 1);
    for j := i + 1 to |scores|
      invariant Inner(scores, sim, threshold, removed[..], i, j) == after
    {
      if removed[j] {
        continue;
      }
      ghost var was := removed[..];
      var c := Compare(vecs, sqrt, i, j, sim);
      if c > threshold {
        if scores[i] >= scores[j] {
          removed[j] := true;
          assert removed[..] == was[j := true];
        } else {
          removed[i] := true;
          assert removed[..] == was[i := true];
          break;
        }
      }
    }
  }

  // markDuplicates: the mask of superseded results.
  method MarkDuplicates(scores: seq<real>, vecs: seq<map<string, real>>, sqrt: real -> real, threshold: real,
                        ghost sim: (nat, nat) -> real)
    returns (removed: array<bool>)
    requires |vecs| == |scores| && Measures(vecs, sqrt, sim)
    ensures fresh(removed) && removed[..] == Sweep(scores, sim, threshold)
  {
    removed := new bool[|scores|](_ => false);
    assert removed[..] == seq(|scores|, _ => false);
    for i := 0 to |scores|
      invariant Outer(scores, sim, threshold, removed[..], i) == Sweep(scores, sim, threshold)
    {
      if removed[i] {
        continue;
      }
      MarkAgainst(scores, vecs, sqrt, threshold, sim, removed, i);
    }
  }

  // ---- DedupSnippets

  // The places the mask leaves, in order.
  function Kept(removed: seq<bool>): (at: seq<nat>)
    ensures forall k :: 0 <= k < |at| ==> at[k] < |removed| && !removed[at[k]]
    ensures forall k, l :: 0 <= k < l < |at| ==> at[k] < at[l]
    ensures forall i :: 0 <= i < |removed| && !removed[i] ==> i in at
  {
    if removed == [] then []
    else
      var n := |removed| - 1;
      var earlier := Kept(removed[..n]);
      assert forall i :: 0 <= i < n && !removed[i] ==> removed[..n][i] == removed[i];
      if removed[n] then earlier else earlier + [n]
  }

  function Scores(results: seq<Result>): seq<real> { seq(|results|, i requires 0 <= i < |results| => results[i].score) }

  function Bags(results: seq<Result>, fields: string -> seq<string>): (bags: seq<map<string, real>>) {
    seq(|results|, i requires 0 <= i < |results| => Bag(fields(results[i].content)))
  }

  // The vectors of the results, one by one.
  method Vectors(results: seq<Result>, fields: string -> seq<string>) returns (vecs: seq<map<string, real>>)
    ensures vecs == Bags(results, fields)
  {
    vecs := [];
    for i := 0 to |results|
      invariant |vecs| == i
      invariant forall k :: 0 <= k < i ==> vecs[k] == Bag(fields(results[k].content))
    {
      var vec := BagOfWords(fields(results[i].content));
      vecs := vecs + [vec];
    }
  }

  lemma KeptStep(removed: seq<bool>, i: nat)
    requires i < |removed|
    ensures Kept(removed[..i + 1]) == Kept(removed[..i]) + (if removed[i] then [] else [i])
  {
    assert removed[..i + 1][..i] == removed[..i];
  }

  // The results that were not removed, in order.
  method Survivors(results: seq<Result>, removed: array<bool>) returns (out: seq<Result>)
    requires removed.Length == |results|
    ensures |out| == |Kept(removed[..])|
    ensures forall k :: 0 <= k < |out| ==> out[k] == results[Kept(removed[..])[k]]
  {
    out := [];
    for i := 0 to |results|
      invariant |out| == |Kept(removed[..i])|
      invariant forall k :: 0 <= k < |out| ==> out[k] == results[Kept(removed[..i])[k]]
    {
      KeptStep(removed[..], i);
      assert removed[..][..i] == removed[..i] && removed[..][..i + 1] == removed[..i + 1];
      if !removed[i] {
        out := out + [results[i]];
      }
    }
    assert removed[..|results|] == removed[..];
  }

  // DedupSnippets: the results at the places the sweep keeps, in their order.
  // `fields` stands for lower-casing and splitting at characters that are
  // neither letters nor digits.
  method DedupSnippets(results: seq<Result>, fields: string -> seq<string>, sqrt: real -> real, threshold: real)
    returns (out: seq<Result>)
    ensures var kept := Kept(Sweep(Scores(results), SimOf(Bags(results, fields), sqrt), threshold));
      |out| == |kept| && forall k :: 0 <= k < |kept| ==> out[k] == results[kept[k]]
  {
    if |results| == 0 {
      return [];
    }
    var vecs := Vectors(results, fields);
    var removed := MarkDuplicates(Scores(results), vecs, sqrt, threshold, SimOf(vecs, sqrt));
    out := Survivors(results, removed);
  }

  // The word counts of a text are never negative.
  lemma BagsNonNegative(results: seq<Result>, fields: string -> seq<string>)
    ensures forall k :: 0 <= k < |results| ==> NonNegative(Bags(results, fields)[k])
  {
    forall k | 0 <= k < |results| ensures NonNegative(Bags(results, fields)[k]) {
      assert Bags(results, fields)[k] == Bag(fields(results[k].content));
    }
  }

  // The similarity of two results is that of the words of their contents.
  ghost function ContentSimilarity(r: Result, q: Result, fields: string -> seq<string>, sqrt: real -> real): real {
    Cosine(Bag(fields(r.content)), Bag(fields(q.content)), sqrt)
  }

  // What DedupSnippets returns, stated about the places it keeps: they are
  // pairwise within the threshold, every other place has a chain of
  // over-threshold pairs up to a kept one, the earliest result of the top
  // score is kept, and a threshold of one or more keeps every place.
  lemma DedupMeaning(results: seq<Result>, fields: string -> seq<string>, sqrt: real -> real, threshold: real)
    returns (removed: seq<bool>)
    ensures var scores := Scores(results);
      var sim := SimOf(Bags(results, fields), sqrt);
      && removed == Sweep(scores, sim, threshold)
      && (forall i :: 0 <= i < |results| ==> scores[i] == results[i].score)
      && (forall i, j :: 0 <= i < |results| && 0 <= j < |results| ==>
            sim(i, j) == ContentSimilarity(results[i], results[j], fields, sqrt))
      && (forall k, l :: 0 <= k < l < |Kept(removed)| ==> sim(Kept(removed)[k], Kept(removed)[l]) <= threshold)
      && (forall j :: 0 <= j < |results| ==> Supported(scores, sim, threshold, removed, j))
      && (forall b :: 0 <= b < |results| && Tops(scores, b) ==> b in Kept(removed))
      && (IsSqrt(sqrt) && threshold >= 1.0 ==> forall j :: 0 <= j < |results| ==> j in Kept(removed))
  {
    var scores := Scores(results);
    var bags := Bags(results, fields);
    var sim := SimOf(bags, sqrt);
    removed := Sweep(scores, sim, threshold);
    SweepSound(scores, sim, threshold);
    forall j | 0 <= j < |results| ensures Supported(scores, sim, threshold, removed, j) {
      var path := ReachesSurvivor(scores, sim, threshold, removed, j);
    }
    forall b | 0 <= b < |results| && Tops(scores, b) ensures b in Kept(removed) {
      BestSurvives(scores, sim, threshold, removed, b);
    }
    if IsSqrt(sqrt) && threshold >= 1.0 {
      BagsNonNegative(results, fields);
      ThresholdOfOne(scores, bags, sqrt, threshold);
    }
  }

  lemma {:induction false} WordsWeigh(words: seq<string>)
    requires words != []
    ensures words[|words| - 1] in Bag(words) && Bag(words)[words[|words| - 1]] > 0.0
  {}

  // Below a threshold of one, two results whose word counts are proportional, such
  // as a text and the same text twice, are not both kept.
  lemma ProportionalTexts(results: seq<Result>, fields: string -> seq<string>, sqrt: real -> real, threshold: real,
                          i: nat, j: nat, t: real)
    requires IsSqrt(sqrt) && threshold < 1.0 && i < j < |results| && fields(results[i].content) != [] && t > 0.0
    requires CosineLaws.Multiple(Bag(fields(results[j].content)), t, Bag(fields(results[i].content)))
    ensures var removed := Sweep(Scores(results), SimOf(Bags(results, fields), sqrt), threshold);
      removed[i] || removed[j]
  {
    var a, b := Bag(fields(results[i].content)), Bag(fields(results[j].content));
    var scores, sim := Scores(results), SimOf(Bags(results, fields), sqrt);
    WordsWeigh(fields(results[i].content));
    CosineLaws.SimilarityOne(a, b, sqrt);
    assert sim(i, j) == Cosine(a, b, sqrt);
    SweepSound(scores, sim, threshold);
  }
}
