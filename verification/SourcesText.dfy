/** The sources block of a prompt, with a ranked share of a token budget per
    source (llm/summarize.go:74-117). The block is the sequence of its parts. */
module SourcesText {
  import opened Utf8
  import opened Tokens

  datatype Source = Source(title: Bytes, url: Bytes, content: Bytes)

  datatype Section =
    | Header(number: nat, title: Bytes, url: Bytes)
    | Content(text: Bytes)
    | Snippet(text: Bytes)

  const RANKED_WEIGHTS: seq<real> := [0.30, 0.25, 0.20, 0.15, 0.10]

  // The tokens source i may take.
  function Share(totalBudget: int, weights: seq<real>, i: nat): int
    requires i < |weights|
  {
    Ceil(totalBudget as real * weights[i])
  }

  // Source i is shown with its fetched content.
  predicate Fetched(r: Source, contents: map<Bytes, Bytes>, weights: seq<real>, i: nat) {
    r.url in contents && contents[r.url] != [] && i < |weights|
  }

  // No truncation slices with a negative bound; a ratio of at least 0 suffices.
  ghost predicate Safe(results: seq<Source>, contents: map<Bytes, Bytes>, totalBudget: int, charsPerToken: real,
                       weights: seq<real>) {
    forall i :: 0 <= i < |results| && Fetched(results[i], contents, weights, i) ==>
      Sliceable(contents[results[i].url], Share(totalBudget, weights, i), charsPerToken)
  }

  lemma {:induction false} RatioIsAlwaysSafe(results: seq<Source>, contents: map<Bytes, Bytes>, totalBudget: int,
                                             charsPerToken: real,
                          weights: seq<real>)
    requires charsPerToken >= 0.0
    ensures Safe(results, contents, totalBudget, charsPerToken, weights)
  {
    forall i | 0 <= i < |results| && Fetched(results[i], contents, weights, i)
      ensures Sliceable(contents[results[i].url], Share(totalBudget, weights, i), charsPerToken)
    {
      RatioIsSafe(contents[results[i].url], Share(totalBudget, weights, i), charsPerToken);
    }
  }

  // What follows the header of source i.
  ghost function Body(r: Source, contents: map<Bytes, Bytes>, totalBudget: int, charsPerToken: real, weights: seq<real>,
                      i: nat): seq<Section>
    requires Fetched(r, contents, weights, i) ==>
      Sliceable(contents[r.url], Share(totalBudget, weights, i), charsPerToken)
  {
    if Fetched(r, contents, weights, i) then
      [Content(Budgeted(contents[r.url], Share(totalBudget, weights, i), charsPerToken))]
    else if r.content != [] then [Snippet(r.content)]
    else []
  }

  ghost function Sections(results: seq<Source>, contents: map<Bytes, Bytes>, totalBudget: int, charsPerToken: real,
                          weights: seq<real>): seq<Section>
    requires Safe(results, contents, totalBudget, charsPerToken, weights)
  {
    if results == [] then []
    else
      var n := |results| - 1;
      Sections(results[..n], contents, totalBudget, charsPerToken, weights)
      + [Header(n + 1, results[n].title, results[n].url)]
      + Body(results[n], contents, totalBudget, charsPerToken, weights, n)
  }

  // What holds of all sources holds of the first i + 1, and of source i.
  lemma SafePrefix(results: seq<Source>, contents: map<Bytes, Bytes>, totalBudget: int, charsPerToken: real,
                   weights: seq<real>, i: nat)
    requires Safe(results, contents, totalBudget, charsPerToken, weights) && i < |results|
    ensures Safe(results[..i], contents, totalBudget, charsPerToken, weights)
    ensures Safe(results[..i + 1], contents, totalBudget, charsPerToken, weights)
    ensures Fetched(results[i], contents, weights, i) ==>
      Sliceable(contents[results[i].url], Share(totalBudget, weights, i), charsPerToken)
    ensures Sections(results[..i + 1], contents, totalBudget, charsPerToken, weights)
      == Sections(results[..i], contents, totalBudget, charsPerToken, weights)
         + [Header(i + 1, results[i].title, results[i].url)]
         + Body(results[i], contents, totalBudget, charsPerToken, weights, i)
  {
    assert results[..i + 1][..i] == results[..i];
  }

  // What source r is shown with after its header.
  method WriteBody(r: Source, contents: map<Bytes, Bytes>, totalBudget: int, charsPerToken: real, weights: seq<real>,
                   i: nat)
    returns (body: seq<Section>)
    requires Fetched(r, contents, weights, i) ==>
      Sliceable(contents[r.url], Share(totalBudget, weights, i), charsPerToken)
    ensures body == Body(r, contents, totalBudget, charsPerToken, weights, i)
  {
    if r.url in contents && contents[r.url] != [] && i < |weights| {
      var tokens := Ceil(totalBudget as real * weights[i]);
      var c := TruncateToTokenBudget(contents[r.url], tokens, charsPerToken);
      return [Content(c)];
    }
    if r.content != [] {
      return [Snippet(r.content)];
    }
    return [];
  }

  // BuildSourcesTextWeighted.
  method BuildSourcesTextWeighted(results: seq<Source>, contents: map<Bytes, Bytes>, totalBudget: int,
                                  charsPerToken: real, weights: seq<real>)
    returns (out: seq<Section>)
    requires Safe(results, contents, totalBudget, charsPerToken, weights)
    ensures out == Sections(results, contents, totalBudget, charsPerToken, weights)
  {
    out := [];
    for i := 0 to |results|
      invariant Safe(results[..i], contents, totalBudget, charsPerToken, weights)
      invariant out == Sections(results[..i], contents, totalBudget, charsPerToken, weights)
    {
      SafePrefix(results, contents, totalBudget, charsPerToken, weights, i);
      var r := results[i];
      var body := WriteBody(r, contents, totalBudget, charsPerToken, weights, i);
      out := out + [Header(i + 1, r.title, r.url)] + body;
    }
    assert results[..|results|] == results;
  }

  // BuildSourcesText: the same with the ranked weights.
  method BuildSourcesText(results: seq<Source>, contents: map<Bytes, Bytes>, totalBudget: int, charsPerToken: real)
    returns (out: seq<Section>)
    requires Safe(results, contents, totalBudget, charsPerToken, RANKED_WEIGHTS)
    ensures out == Sections(results, contents, totalBudget, charsPerToken, RANKED_WEIGHTS)
    ensures ContentCount(out) <= 5
    ensures totalBudget >= 0 && totalBudget % 20 == 0 ==> ContentTokens(out, charsPerToken) <= totalBudget
    ensures ContentTokens(out, charsPerToken) <= totalBudget + 4 <==> totalBudget >= -4
  {
    out := BuildSourcesTextWeighted(results, contents, totalBudget, charsPerToken, RANKED_WEIGHTS);
    ContentBounded(results, contents, totalBudget, charsPerToken, RANKED_WEIGHTS);
    RankedTotal(results, contents, totalBudget, charsPerToken);
  }

  // ---- The budget

  function ContentCount(out: seq<Section>): nat {
    if out == [] then 0 else ContentCount(out[..|out| - 1]) + (if out[|out| - 1].Content? then 1 else 0)
  }

  function TokensOf(s: Section, charsPerToken: real): nat {
    if s.Content? then EstimateTokens(s.text, charsPerToken) else 0
  }

  // The estimated tokens of all Content sections.
  function ContentTokens(out: seq<Section>, charsPerToken: real): nat {
    if out == [] then 0 else ContentTokens(out[..|out| - 1], charsPerToken) + TokensOf(out[|out| - 1], charsPerToken)
  }

  function Positive(x: int): nat { if x > 0 then x else 0 }

  // The shares of the first n weights; a share below 0 counts as 0.
  function Shares(totalBudget: int, weights: seq<real>, n: nat): nat
    requires n <= |weights|
  {
    if n == 0 then 0
    else
      Shares(totalBudget, weights, n - 1) + Positive(Share(totalBudget, weights, n - 1))
  }

  function Least(x: nat, y: nat): nat { if x < y then x else y }

  lemma {:induction false} CountAppend(out: seq<Section>, more: seq<Section>, charsPerToken: real)
    ensures ContentCount(out + more) == ContentCount(out) + ContentCount(more)
    ensures ContentTokens(out + more, charsPerToken)
         == ContentTokens(out, charsPerToken) + ContentTokens(more, charsPerToken)
  {
    if more == [] {
      assert out + more == out;
    } else {
      var n := |more| - 1;
      assert (out + more)[..|out| + n] == out + more[..n];
      CountAppend(out, more[..n], charsPerToken);
    }
  }

  lemma AppendSource(front: seq<Section>, header: seq<Section>, body: seq<Section>, charsPerToken: real)
    ensures ContentCount(front + header + body) == ContentCount(front) + ContentCount(header + body)
    ensures ContentTokens(front + header + body, charsPerToken)
      == ContentTokens(front, charsPerToken) + ContentTokens(header + body, charsPerToken)
  {
    CountAppend(front, header + body, charsPerToken);
    assert front + header + body == front + (header + body);
  }

  // Source i adds at most one Content section, within its share.
  lemma BodyBounded(r: Source, contents: map<Bytes, Bytes>, totalBudget: int, charsPerToken: real, weights: seq<real>,
                    i: nat)
    requires Fetched(r, contents, weights, i) ==>
      Sliceable(contents[r.url], Share(totalBudget, weights, i), charsPerToken)
    ensures var more := [Header(i + 1, r.title, r.url)] + Body(r, contents, totalBudget, charsPerToken, weights, i);
      && ContentCount(more) <= (if i < |weights| then 1 else 0)
      && ContentTokens(more, charsPerToken)
         <= (if i < |weights| then Positive(Share(totalBudget, weights, i)) else 0)
  {
    var header := [Header(i + 1, r.title, r.url)];
    var body := Body(r, contents, totalBudget, charsPerToken, weights, i);
    CountAppend(header, body, charsPerToken);
    assert header[..0] == [] && (body != [] ==> body[..0] == []);
    if Fetched(r, contents, weights, i) {
      EstimateWithinBudget(contents[r.url], Share(totalBudget, weights, i), charsPerToken);
    }
  }

  // At most one Content section per weight, together within the shares.
  lemma {:induction false} ContentBounded(results: seq<Source>, contents: map<Bytes, Bytes>, totalBudget: int,
                                          charsPerToken: real, weights: seq<real>)
    requires Safe(results, contents, totalBudget, charsPerToken, weights)
    ensures var out := Sections(results, contents, totalBudget, charsPerToken, weights);
      && ContentCount(out) <= |weights|
      && ContentCount(out) <= |results|
      && ContentTokens(out, charsPerToken) <= Shares(totalBudget, weights, Least(|results|, |weights|))
  {
    if results != [] {
      var n := |results| - 1;
      var front := Sections(results[..n], contents, totalBudget, charsPerToken, weights);
      var header := [Header(n + 1, results[n].title, results[n].url)];
      var body := Body(results[n], contents, totalBudget, charsPerToken, weights, n);
      ContentBounded(results[..n], contents, totalBudget, charsPerToken, weights);
      BodyBounded(results[n], contents, totalBudget, charsPerToken, weights, n);
      AppendSource(front, header, body, charsPerToken);
      SharesStep(totalBudget, weights, n);
    }
  }

  lemma {:induction false} SharesStep(totalBudget: int, weights: seq<real>, n: nat)
    ensures Shares(totalBudget, weights, Least(n + 1, |weights|)) == Shares(totalBudget, weights, Least(n, |weights|))
      + (if n < |weights| then Positive(Share(totalBudget, weights, n)) else 0)
  {}

  lemma {:induction false} SharesGrow(totalBudget: int, weights: seq<real>, m: nat, n: nat)
    requires m <= n <= |weights|
    ensures Shares(totalBudget, weights, m) <= Shares(totalBudget, weights, n)
    decreases n
  {
    if m < n { SharesGrow(totalBudget, weights, m, n - 1); }
  }

  lemma RankedSum(totalBudget: int)
    ensures Shares(totalBudget, RANKED_WEIGHTS, 5) ==
      Positive(Share(totalBudget, RANKED_WEIGHTS, 0)) + Positive(Share(totalBudget, RANKED_WEIGHTS, 1))
      + Positive(Share(totalBudget, RANKED_WEIGHTS, 2)) + Positive(Share(totalBudget, RANKED_WEIGHTS, 3))
      + Positive(Share(totalBudget, RANKED_WEIGHTS, 4))
  {
    var w, b := RANKED_WEIGHTS, totalBudget;
    assert Shares(b, w, 0) == 0;
    assert Shares(b, w, 1) == Positive(Share(b, w, 0));
    assert Shares(b, w, 2) == Shares(b, w, 1) + Positive(Share(b, w, 1));
    assert Shares(b, w, 3) == Shares(b, w, 2) + Positive(Share(b, w, 2));
    assert Shares(b, w, 4) == Shares(b, w, 3) + Positive(Share(b, w, 3));
  }

  // Five numbers that round up 6, 5, 4, 3 and 2 twentieths of b.
  predicate Roundings(b: int, x0: int, x1: int, x2: int, x3: int, x4: int) {
    && 0 <= 20 * x0 - 6 * b < 20 && 0 <= 20 * x1 - 5 * b < 20 && 0 <= 20 * x2 - 4 * b < 20
    && 0 <= 20 * x3 - 3 * b < 20 && 0 <= 20 * x4 - 2 * b < 20
  }

  lemma RoundingsSum(b: int, x0: int, x1: int, x2: int, x3: int, x4: int)
    requires Roundings(b, x0, x1, x2, x3, x4)
    ensures b <= x0 + x1 + x2 + x3 + x4 <= b + 4
    ensures x0 + x1 + x2 + x3 + x4 == b ==> b == 10 * x4 && b == 4 * x1
  {}

  lemma RoundingsExact(b: int, q: int, x0: int, x1: int, x2: int, x3: int, x4: int)
    requires Roundings(b, x0, x1, x2, x3, x4) && b == 20 * q
    ensures x0 + x1 + x2 + x3 + x4 == b
  {
    assert x0 == 6 * q;
    assert x1 == 5 * q;
    assert x2 == 4 * q;
    assert x3 == 3 * q;
    assert x4 == 2 * q;
  }

  lemma TenAndFour(b: int, x: int, y: int)
    requires b == 10 * x && b == 4 * y
    ensures b % 20 == 0
  {
    var h := y / 5;
    assert 2 * y == 5 * x;
    assert b == 20 * h;
  }

  lemma FiveRoundings(b: int, x0: int, x1: int, x2: int, x3: int, x4: int, sum: int)
    requires Roundings(b, x0, x1, x2, x3, x4) && sum == x0 + x1 + x2 + x3 + x4
    ensures b <= sum <= b + 4 && (sum == b <==> b % 20 == 0)
  {
    RoundingsSum(b, x0, x1, x2, x3, x4);
    if b % 20 == 0 {
      RoundingsExact(b, b / 20, x0, x1, x2, x3, x4);
    } else if sum == b {
      TenAndFour(b, x4, x1);
    }
  }

  // The ranked shares are such roundings.
  lemma RankedTwentieths(b: int)
    ensures var w := RANKED_WEIGHTS;
      Roundings(b, Share(b, w, 0), Share(b, w, 1), Share(b, w, 2), Share(b, w, 3), Share(b, w, 4))
  {}

  // The ranked shares add up to the budget exactly when it is a multiple of
  // twenty; otherwise they exceed it, by at most four tokens.
  lemma RankedShares(totalBudget: int)
    ensures var sum := Shares(totalBudget, RANKED_WEIGHTS, 5);
      && (totalBudget >= 0 ==> totalBudget <= sum <= totalBudget + 4)
      && (totalBudget >= 0 ==> (sum == totalBudget <==> totalBudget % 20 == 0))
      && (totalBudget <= 0 ==> sum == 0)
  {
    RankedSum(totalBudget);
    RankedTwentieths(totalBudget);
    if totalBudget >= 0 {
      var b, w := totalBudget, RANKED_WEIGHTS;
      FiveRoundings(b, Share(b, w, 0), Share(b, w, 1), Share(b, w, 2), Share(b, w, 3), Share(b, w, 4),
                    Shares(b, w, 5));
    }
  }

  // ---- A source list that uses every share up

  // Distinct URLs, one byte longer each time.
  function Url(i: nat): Bytes { seq(i, _ => 0x61) }

  function Listed(n: nat): seq<Source> { seq(n, (i: nat) => Source([], Url(i), [])) }

  // Fetched contents of exactly as many bytes as the shares allow tokens.
  ghost predicate FillsShares(contents: map<Bytes, Bytes>, b: int) {
    forall i {:trigger Url(i)} :: 0 <= i < 5 ==>
      Url(i) in contents && |contents[Url(i)]| == Share(b, RANKED_WEIGHTS, i)
  }

  lemma FilledContents(b: int) returns (contents: map<Bytes, Bytes>)
    requires b > 0
    ensures FillsShares(contents, b)
  {
    RankedTwentieths(b);
    contents := map[];
    for n := 0 to 5
      invariant forall i {:trigger Url(i)} :: 0 <= i < n ==>
        Url(i) in contents && |contents[Url(i)]| == Share(b, RANKED_WEIGHTS, i)
    {
      var text: Bytes := seq(Share(b, RANKED_WEIGHTS, n), _ => 0x61);
      assert forall i :: 0 <= i < n ==> |Url(i)| != |Url(n)|;
      contents := contents[Url(n) := text];
    }
  }

  // At one byte a token, nothing is cut and everything is counted.
  lemma WholeText(text: Bytes)
    requires text != []
    ensures Sliceable(text, |text|, 1.0) && Budgeted(text, |text|, 1.0) == text
    ensures EstimateTokens(text, 1.0) == |text|
  {
    assert |text| as real * 1.0 == |text| as real;
    EstimateIsLeast(text, 1.0, |text|);
    EstimateIsLeast(text, 1.0, |text| - 1);
  }

  // What source m of the list is shown with, and what that is counted as.
  lemma ListedSource(contents: map<Bytes, Bytes>, b: int, m: nat)
    requires b > 0 && m < 5 && FillsShares(contents, b)
    ensures var r, share := Source([], Url(m), []), Share(b, RANKED_WEIGHTS, m);
      && share > 0 && Fetched(r, contents, RANKED_WEIGHTS, m)
      && Sliceable(contents[r.url], share, 1.0)
      && Body(r, contents, b, 1.0, RANKED_WEIGHTS, m) == [Content(contents[r.url])]
      && ContentTokens([Header(m + 1, r.title, r.url)] + Body(r, contents, b, 1.0, RANKED_WEIGHTS, m), 1.0) == share
  {
    RankedTwentieths(b);
    assert Url(m) in contents && |contents[Url(m)]| == Share(b, RANKED_WEIGHTS, m);
    WholeText(contents[Url(m)]);
    HeaderThenContent(m + 1, Source([], Url(m), []), contents[Url(m)]);
  }

  lemma HeaderThenContent(n: nat, r: Source, text: Bytes)
    ensures ContentTokens([Header(n, r.title, r.url)] + [Content(text)], 1.0) == EstimateTokens(text, 1.0)
  {
    CountAppend([Header(n, r.title, r.url)], [Content(text)], 1.0);
    assert [Header(n, r.title, r.url)][..0] == [] && [Content(text)][..0] == [];
  }

  lemma {:induction false} ListedUseShares(contents: map<Bytes, Bytes>, b: int, n: nat)
    requires b > 0 && n <= 5 && FillsShares(contents, b)
    requires Safe(Listed(n), contents, b, 1.0, RANKED_WEIGHTS)
    ensures ContentTokens(Sections(Listed(n), contents, b, 1.0, RANKED_WEIGHTS), 1.0) == Shares(b, RANKED_WEIGHTS, n)
  {
    if n > 0 {
      var m := n - 1;
      var r := Source([], Url(m), []);
      assert Listed(n)[..m] == Listed(m) && Listed(n)[m] == r;
      ListedUseShares(contents, b, m);
      ListedSource(contents, b, m);
      AppendSource(Sections(Listed(m), contents, b, 1.0, RANKED_WEIGHTS), [Header(n, r.title, r.url)],
                   Body(r, contents, b, 1.0, RANKED_WEIGHTS, m), 1.0);
    }
  }

  // For every positive budget some five sources use up the ranked shares.
  lemma SharesUsedUp(b: int) returns (contents: map<Bytes, Bytes>)
    requires b > 0
    ensures Safe(Listed(5), contents, b, 1.0, RANKED_WEIGHTS)
    ensures ContentTokens(Sections(Listed(5), contents, b, 1.0, RANKED_WEIGHTS), 1.0) == Shares(b, RANKED_WEIGHTS, 5)
  {
    contents := FilledContents(b);
    RatioIsAlwaysSafe(Listed(5), contents, b, 1.0, RANKED_WEIGHTS);
    ListedUseShares(contents, b, 5);
  }

  // ---- When totalBudget is the total

  // No input is shown with more content than the budget plus `extra`.
  ghost predicate KeepsTotal(totalBudget: int, extra: nat) {
    forall results, contents, charsPerToken
      {:trigger Safe(results, contents, totalBudget, charsPerToken, RANKED_WEIGHTS)} ::
      Safe(results, contents, totalBudget, charsPerToken, RANKED_WEIGHTS) ==>
        ContentTokens(Sections(results, contents, totalBudget, charsPerToken, RANKED_WEIGHTS), charsPerToken)
          <= totalBudget + extra
  }

  lemma TotalWithinShares(results: seq<Source>, contents: map<Bytes, Bytes>, totalBudget: int, charsPerToken: real)
    requires Safe(results, contents, totalBudget, charsPerToken, RANKED_WEIGHTS)
    ensures ContentTokens(Sections(results, contents, totalBudget, charsPerToken, RANKED_WEIGHTS), charsPerToken)
      <= Shares(totalBudget, RANKED_WEIGHTS, 5)
  {
    ContentBounded(results, contents, totalBudget, charsPerToken, RANKED_WEIGHTS);
    SharesGrow(totalBudget, RANKED_WEIGHTS, Least(|results|, 5), 5);
  }

  // What a budget guarantees is what its ranked shares allow, and no less.
  lemma KeepsTotalIffShares(totalBudget: int, extra: nat)
    ensures KeepsTotal(totalBudget, extra) <==> Shares(totalBudget, RANKED_WEIGHTS, 5) <= totalBudget + extra
  {
    var b := totalBudget;
    RankedShares(b);
    if Shares(b, RANKED_WEIGHTS, 5) <= b + extra {
      forall results, contents, charsPerToken | Safe(results, contents, b, charsPerToken, RANKED_WEIGHTS)
        ensures ContentTokens(Sections(results, contents, b, charsPerToken, RANKED_WEIGHTS), charsPerToken) <= b + extra
      {
        TotalWithinShares(results, contents, b, charsPerToken);
      }
    } else if b > 0 {
      var contents := SharesUsedUp(b);
    } else {
      assert Safe([], map[], b, 1.0, RANKED_WEIGHTS);
    }
  }

  // totalBudget is the total for every input exactly when it is a multiple of
  // twenty and not negative.
  lemma TotalKeptExactly(totalBudget: int)
    ensures KeepsTotal(totalBudget, 0) <==> totalBudget >= 0 && totalBudget % 20 == 0
  {
    RankedShares(totalBudget);
    KeepsTotalIffShares(totalBudget, 0);
  }

  // A budget of one token lets five sources show one token each, so four tokens
  // over is the most and is reached.
  lemma FiveTokensForOne() returns (contents: map<Bytes, Bytes>)
    ensures Safe(Listed(5), contents, 1, 1.0, RANKED_WEIGHTS)
    ensures ContentTokens(Sections(Listed(5), contents, 1, 1.0, RANKED_WEIGHTS), 1.0) == 5
  {
    contents := SharesUsedUp(1);
    RankedSum(1);
    RankedTwentieths(1);
  }

  // Up to four tokens over is kept for every input exactly from -4 on: at a
  // budget of 0 or less nothing is shown.
  lemma RankedTotal(results: seq<Source>, contents: map<Bytes, Bytes>, totalBudget: int, charsPerToken: real)
    requires Safe(results, contents, totalBudget, charsPerToken, RANKED_WEIGHTS)
    ensures var out := Sections(results, contents, totalBudget, charsPerToken, RANKED_WEIGHTS);
      && (totalBudget >= 0 && totalBudget % 20 == 0 ==> ContentTokens(out, charsPerToken) <= totalBudget)
      && (ContentTokens(out, charsPerToken) <= totalBudget + 4 <==> totalBudget >= -4)
      && (totalBudget <= 0 ==> ContentTokens(out, charsPerToken) == 0)
  {
    TotalWithinShares(results, contents, totalBudget, charsPerToken);
    RankedShares(totalBudget);
  }

  // ---- The text

  // Valid UTF-8 stays valid, and each Content section is the start of what was
  // fetched for a listed source.
  ghost predicate WellCut(out: seq<Section>, results: seq<Source>, contents: map<Bytes, Bytes>) {
    forall s <- out :: s.Content? ==> Valid(s.text) && StartsFetched(s.text, results, contents)
  }

  ghost predicate StartsFetched(text: Bytes, results: seq<Source>, contents: map<Bytes, Bytes>) {
    exists r <- results :: r.url in contents && text <= contents[r.url]
  }

  lemma {:induction false} ContentsWellCut(results: seq<Source>, contents: map<Bytes, Bytes>, totalBudget: int,
                                           charsPerToken: real, weights: seq<real>)
    requires Safe(results, contents, totalBudget, charsPerToken, weights)
    requires forall u <- contents :: Valid(contents[u])
    ensures WellCut(Sections(results, contents, totalBudget, charsPerToken, weights), results, contents)
  {
    if results != [] {
      var n := |results| - 1;
      var r := results[n];
      ContentsWellCut(results[..n], contents, totalBudget, charsPerToken, weights);
      if Fetched(r, contents, weights, n) {
        BudgetedKeepsUtf8(contents[r.url], Share(totalBudget, weights, n), charsPerToken);
      }
    }
  }

  lemma {:induction false} BudgetedKeepsUtf8(text: Bytes, maxTokens: int, charsPerToken: real)
    requires Valid(text) && Sliceable(text, maxTokens, charsPerToken)
    ensures var out := Budgeted(text, maxTokens, charsPerToken); out <= text && Valid(out)
  {
    if maxTokens > 0 && text != [] { CutIsLongest(text, MaxBytes(maxTokens, charsPerToken)); }
  }
}
