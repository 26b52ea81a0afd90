/** The sources block, source by source (llm/summarize.go:74-117): where each
    header stands and what follows it. */
module SourceBlocks {
  import opened RealFacts
  import opened Utf8
  import opened Tokens
  import opened SourcesText

  // `text` is what `whole` is cut to for that many tokens: one of its prefixes;
  // for valid UTF-8 the longest valid one whose bytes the tokens pay for; empty
  // without tokens or with a negative ratio.
  ghost predicate CutTo(text: Bytes, whole: Bytes, tokens: int, charsPerToken: real) {
    && text <= whole
    && (tokens <= 0 || charsPerToken < 0.0 ==> text == [])
    && (tokens > 0 && charsPerToken >= 0.0 ==> |text| as real <= tokens as real * charsPerToken)
    && (tokens > 0 && charsPerToken >= 0.0 && Valid(whole) ==>
          Valid(text) && Longest(text, whole, tokens as real * charsPerToken))
  }

  ghost predicate Longest(text: Bytes, whole: Bytes, bytes: real) {
    forall i :: 0 <= i <= |whole| && Valid(whole[..i]) && i as real <= bytes ==> i <= |text|
  }

  // tokens is the least integer that is at least x.
  predicate RoundsUp(tokens: int, x: real) { (tokens - 1) as real < x <= tokens as real }

  // What follows the header of source i: its own fetched content cut to its share of
  // the budget, rounded up; without fetched content or without a weight its own
  // snippet; and nothing when that is empty too.
  ghost predicate ShownAs(body: seq<Section>, r: Source, contents: map<Bytes, Bytes>, totalBudget: int,
                          charsPerToken: real, weights: seq<real>, i: nat)
  {
    if r.url in contents && |contents[r.url]| > 0 && i < |weights| then
      && |body| == 1 && body[0].Content?
      && exists tokens :: RoundsUp(tokens, totalBudget as real * weights[i])
           && CutTo(body[0].text, contents[r.url], tokens, charsPerToken)
    else if |r.content| > 0 then body == [Snippet(r.content)]
    else body == []
  }

  // The headers stand at the places heads[0], heads[1], ... in the order of the
  // sources, and up to the next header comes what its source is shown as.
  ghost predicate LaidOut(out: seq<Section>, heads: seq<nat>, results: seq<Source>, contents: map<Bytes, Bytes>,
                          totalBudget: int, charsPerToken: real, weights: seq<real>)
  {
    && |heads| == |results| + 1 && heads[0] == 0 && heads[|results|] == |out|
    && forall i :: 0 <= i < |results| ==> Block(out, heads[i], heads[i + 1], results[i], contents, totalBudget,
                                                charsPerToken, weights, i)
  }

  ghost predicate Block(out: seq<Section>, from: nat, to: nat, r: Source, contents: map<Bytes, Bytes>,
                        totalBudget: int, charsPerToken: real, weights: seq<real>, i: nat)
  {
    && from < to <= |out|
    && out[from] == Header(i + 1, r.title, r.url)
    && ShownAs(out[from + 1..to], r, contents, totalBudget, charsPerToken, weights, i)
  }

  lemma {:induction false} ByteLimit(tokens: int, charsPerToken: real, bytes: real, limit: int)
    requires limit == MaxBytes(tokens, charsPerToken) && tokens > 0 && bytes == tokens as real * charsPerToken
    ensures charsPerToken >= 0.0 ==> 0 <= limit && limit as real <= bytes < (limit + 1) as real
    ensures charsPerToken < 0.0 ==> limit <= 0
  {
    if charsPerToken >= 0.0 {
      ProductNonNegative(tokens as real, charsPerToken);
    } else {
      ProductStrict(charsPerToken, 0.0, tokens as real);
    }
  }

  lemma {:induction false} CutIsPrefix(text: Bytes, m: nat)
    ensures Cut(text, m) <= text && |Cut(text, m)| <= m
  {}

  lemma CutIsPaid(whole: Bytes, bytes: real, limit: nat)
    requires limit as real <= bytes < (limit + 1) as real
    ensures var text := Cut(whole, limit);
      text <= whole && |text| as real <= bytes && (Valid(whole) ==> Valid(text) && Longest(text, whole, bytes))
  {
    CutIsPrefix(whole, limit);
    if Valid(whole) {
      CutIsLongest(whole, limit);
      forall i | 0 <= i <= |whole| && Valid(whole[..i]) && i as real <= bytes ensures i <= |Cut(whole, limit)| {
        assert i <= limit;
      }
    }
  }

  lemma BudgetedCut(whole: Bytes, tokens: int, charsPerToken: real)
    requires whole != [] && Sliceable(whole, tokens, charsPerToken)
    ensures CutTo(Budgeted(whole, tokens, charsPerToken), whole, tokens, charsPerToken)
  {
    if tokens > 0 {
      var limit := MaxBytes(tokens, charsPerToken);
      ByteLimit(tokens, charsPerToken, tokens as real * charsPerToken, limit);
      CutIsPrefix(whole, limit);
      if charsPerToken >= 0.0 { CutIsPaid(whole, tokens as real * charsPerToken, limit); }
    }
  }

  lemma BodyShown(r: Source, contents: map<Bytes, Bytes>, totalBudget: int, charsPerToken: real, weights: seq<real>,
                  i: nat)
    requires Fetched(r, contents, weights, i) ==>
      Sliceable(contents[r.url], Share(totalBudget, weights, i), charsPerToken)
    ensures ShownAs(Body(r, contents, totalBudget, charsPerToken, weights, i), r, contents, totalBudget, charsPerToken,
                    weights, i)
  {
    if Fetched(r, contents, weights, i) {
      BudgetedCut(contents[r.url], Share(totalBudget, weights, i), charsPerToken);
      assert RoundsUp(Share(totalBudget, weights, i), totalBudget as real * weights[i]);
    }
  }

  lemma BlockKept(front: seq<Section>, out: seq<Section>, from: nat, to: nat, r: Source, contents: map<Bytes, Bytes>,
                  totalBudget: int, charsPerToken: real, weights: seq<real>, i: nat)
    requires |front| <= |out| && out[..|front|] == front
    requires Block(front, from, to, r, contents, totalBudget, charsPerToken, weights, i)
    ensures Block(out, from, to, r, contents, totalBudget, charsPerToken, weights, i)
  {
    assert out[from] == front[from] && out[from + 1..to] == front[from + 1..to];
  }

  lemma NewBlock(front: seq<Section>, body: seq<Section>, out: seq<Section>, r: Source, contents: map<Bytes, Bytes>,
                 totalBudget: int, charsPerToken: real, weights: seq<real>, i: nat)
    requires out == front + [Header(i + 1, r.title, r.url)] + body
    requires ShownAs(body, r, contents, totalBudget, charsPerToken, weights, i)
    ensures Block(out, |front|, |out|, r, contents, totalBudget, charsPerToken, weights, i)
    ensures |front| <= |out| && out[..|front|] == front
  {
    assert out[|front| + 1..|out|] == body;
  }

  // BuildSourcesTextWeighted shows the sources in order, each under its header.
  lemma {:induction false} ShownInOrder(results: seq<Source>, contents: map<Bytes, Bytes>, totalBudget: int,
                                        charsPerToken: real, weights: seq<real>) returns (heads: seq<nat>)
    requires Safe(results, contents, totalBudget, charsPerToken, weights)
    ensures LaidOut(Sections(results, contents, totalBudget, charsPerToken, weights), heads, results, contents,
                    totalBudget, charsPerToken, weights)
  {
    if results == [] {
      heads := [0];
    } else {
      var n := |results| - 1;
      var earlier := ShownInOrder(results[..n], contents, totalBudget, charsPerToken, weights);
      BodyShown(results[n], contents, totalBudget, charsPerToken, weights, n);
      heads := OneMoreSource(Sections(results[..n], contents, totalBudget, charsPerToken, weights),
                             Body(results[n], contents, totalBudget, charsPerToken, weights, n),
                             Sections(results, contents, totalBudget, charsPerToken, weights),
                             earlier, results, contents, totalBudget, charsPerToken, weights, n);
    }
  }

  lemma OneMoreSource(front: seq<Section>, body: seq<Section>, out: seq<Section>, earlier: seq<nat>,
                      results: seq<Source>, contents: map<Bytes, Bytes>, totalBudget: int, charsPerToken: real,
                      weights: seq<real>, n: nat)
    returns (heads: seq<nat>)
    requires |results| == n + 1 && out == front + [Header(n + 1, results[n].title, results[n].url)] + body
    requires LaidOut(front, earlier, results[..n], contents, totalBudget, charsPerToken, weights)
    requires ShownAs(body, results[n], contents, totalBudget, charsPerToken, weights, n)
    ensures LaidOut(out, heads, results, contents, totalBudget, charsPerToken, weights)
  {
    heads := earlier + [|out|];
    NewBlock(front, body, out, results[n], contents, totalBudget, charsPerToken, weights, n);
    forall i | 0 <= i < |results|
      ensures Block(out, heads[i], heads[i + 1], results[i], contents, totalBudget, charsPerToken, weights, i)
    {
      if i < n {
        assert results[..n][i] == results[i];
        BlockKept(front, out, earlier[i], earlier[i + 1], results[i], contents, totalBudget, charsPerToken, weights, i);
      }
    }
  }
}
