/** Fact verification (llm/factverify.go): Unicode digits, number tokens in
    context, and the annotation of facts in place. */
module FactVerify {
  import opened DecimalText
  import opened NumberForms

  // ---- Decimal digits of any script

  // Nd digits come in blocks of ten consecutive runes; blocks may be adjacent.
  predicate DigitBlocks(starts: set<int>) {
    forall s <- starts, t <- starts :: s < t ==> s + 10 <= t
  }

  // unicode.IsDigit
  predicate IsDigitRune(starts: set<int>, r: int) { exists s <- starts :: s <= r < s + 10 }

  lemma {:induction false} LowerBound(starts: set<int>) returns (lo: int)
    ensures forall s <- starts :: lo <= s
  {
    lo := 0;
    if s :| s in starts {
      var rest := LowerBound(starts - {s});
      lo := if s < rest then s else rest;
      forall t | t in starts ensures lo <= t { assert t == s || t in starts - {s}; }
    }
  }

  // A run of digits that begins at a block start consists of whole blocks.
  lemma {:induction false} BlocksFollow(starts: set<int>, b: int, k: nat)
    requires DigitBlocks(starts) && b in starts
    requires forall x :: b <= x <= b + 10 * k ==> IsDigitRune(starts, x)
    ensures b + 10 * k in starts
  {
    if k > 0 {
      BlocksFollow(starts, b, k - 1);
      var x := b + 10 * k;
      assert IsDigitRune(starts, x);
      var s :| s in starts && s <= x < s + 10;
    }
  }

  // ndDigitValue: the offset of a digit in its block.
  method NdDigitValue(starts: set<int>, r: int) returns (value: int)
    requires DigitBlocks(starts) && IsDigitRune(starts, r)
    ensures 0 <= value < 10 && r - value in starts
  {
    ghost var lo := LowerBound(starts);
    var v := 0;
    while IsDigitRune(starts, r - v - 1)
      invariant 0 <= v
      invariant forall x :: r - v <= x <= r ==> IsDigitRune(starts, x)
      decreases r - v - lo
    {
      v := v + 1;
    }
    ghost var b := r - v;
    assert IsDigitRune(starts, b);
    assert b in starts;
    BlocksFollow(starts, b, v / 10);
    return v % 10;
  }

  const DELETE := -1

  // The fixed part of factNormalizeRune: quotes, dashes, the letter yo,
  // invisible characters and spaces.
  function FoldRune(r: int): int {
    if r in {0x2018, 0x2019, 0x201A, 0x201B} then '\'' as int
    else if r in {0x201C, 0x201D, 0x201E, 0x201F, 0xAB, 0xBB} then '"' as int
    else if r in {0x2013, 0x2014, 0x2212} then '-' as int
    else if r in {0x451, 0x401} then 0x435
    else if r in {0xAD, 0x200B, 0x200C, 0x200D, 0x2060, 0xFEFF} then DELETE
    else if r in {0xA0, 0x202F, 0x2009} then ' ' as int
    else r
  }

  // factNormalizeRune. The ASCII digits are the lowest block, so every digit of
  // every script becomes the ASCII digit of the same value.
  method FactNormalizeRune(starts: set<int>, r: int) returns (out: int)
    requires DigitBlocks(starts) && '0' as int in starts && forall s <- starts :: '0' as int <= s
    ensures IsDigitRune(starts, r) ==>
      '0' as int <= out <= '9' as int && r - (out - '0' as int) in starts
    ensures !IsDigitRune(starts, r) ==>
      && (r in {0x2018, 0x2019, 0x201A, 0x201B} ==> out == '\'' as int)
      && (r in {0x201C, 0x201D, 0x201E, 0x201F, 0xAB, 0xBB} ==> out == '\"' as int)
      && (r in {0x2013, 0x2014, 0x2212} ==> out == '-' as int)
      && (r in {0x451, 0x401} ==> out == 0x435)
      && (r in {0xAD, 0x200B, 0x200C, 0x200D, 0x2060, 0xFEFF} ==> out == -1)
      && (r in {0xA0, 0x202F, 0x2009} ==> out == ' ' as int)
      && (out != r <==> r in {0x2018, 0x2019, 0x201A, 0x201B, 0x201C, 0x201D, 0x201E, 0x201F, 0xAB, 0xBB,
        0x2013, 0x2014, 0x2212, 0x451, 0x401, 0xAD, 0x200B, 0x200C, 0x200D, 0x2060, 0xFEFF, 0xA0, 0x202F, 0x2009})
  {
    if r > '9' as int && IsDigitRune(starts, r) {
      var value := NdDigitValue(starts, r);
      return '0' as int + value;
    }
    assert IsDigitRune(starts, r) ==> r <= '9' as int;
    return FoldRune(r);
  }

  // ---- Number tokens in normalised text

  datatype Span = Span(lo: nat, hi: nat)

  // What the number regexp reports: non-empty stretches of digits and separators.
  predicate NumberSpan(s: string, m: Span) {
    && m.lo < m.hi <= |s|
    && forall i :: m.lo <= i < m.hi ==> IsDigit(s[i]) || IsSeparator(s[i])
  }

  // A minus directly before the number belongs to it, unless a digit precedes
  // the minus ("15-20" is a range).
  predicate SignedAt(s: string, m: Span)
    requires NumberSpan(s, m)
  {
    m.lo > 0 && s[m.lo - 1] == '-' && (m.lo == 1 || !IsDigit(s[m.lo - 2]))
  }

  ghost predicate TokenOfSpan(s: string, m: Span, token: string)
    requires NumberSpan(s, m)
  {
    IsNumberToken(token) && Unsigned(token) == s[m.lo..m.hi] && (IsNegative(token) <==> SignedAt(s, m))
  }

  ghost predicate TokensOfSpans(s: string, spans: seq<Span>, toks: seq<string>) {
    && |toks| == |spans|
    && forall k :: 0 <= k < |spans| ==> NumberSpan(s, spans[k]) && TokenOfSpan(s, spans[k], toks[k])
  }

  // The token of one match, with its sign.
  method TokenAt(s: string, m: Span) returns (tok: string)
    requires NumberSpan(s, m)
    ensures TokenOfSpan(s, m, tok)
  {
    tok := s[m.lo..m.hi];
    assert tok[0] == s[m.lo];
    if m.lo > 0 && s[m.lo - 1] == '-' && (m.lo == 1 || !IsDigit(s[m.lo - 2])) {
      tok := "-" + tok;
      assert Unsigned(tok) == s[m.lo..m.hi];
    }
  }

  // factNumberTokens.
  method FactNumberTokens(s: string, spans: seq<Span>) returns (toks: seq<string>)
    requires forall k :: 0 <= k < |spans| ==> NumberSpan(s, spans[k])
    ensures TokensOfSpans(s, spans, toks)
    ensures forall t <- toks :: IsNumberToken(t)
  {
    toks := [];
    for k := 0 to |spans|
      invariant |toks| == k
      invariant forall j :: 0 <= j < k ==> TokenOfSpan(s, spans[j], toks[j])
    {
      var tok := TokenAt(s, spans[k]);
      toks := toks + [tok];
    }
  }

  // "15-20" is a range of two numbers; after anything but a digit the minus is a sign.
  lemma RangeOrSign(before: string, d: string)
    requires d != "" && AllDigits(d)
    ensures var s, m := before + "-" + d, Span(|before| + 1, |before| + 1 + |d|);
      var inRange := before != "" && '0' <= before[|before| - 1] <= '9';
      TokensOfSpans(s, [m], [if inRange then d else "-" + d])
  {
    var s, m := before + "-" + d, Span(|before| + 1, |before| + 1 + |d|);
    assert s[m.lo..m.hi] == d;
    assert Unsigned("-" + d) == d && IsNegative("-" + d) && !IsNegative(d);
  }

  // Tokens are determined by the spans.
  lemma TokensUnique(s: string, spans: seq<Span>, a: seq<string>, b: seq<string>)
    requires TokensOfSpans(s, spans, a) && TokensOfSpans(s, spans, b)
    ensures a == b
  {
    forall k | 0 <= k < |spans| ensures a[k] == b[k] {
      assert TokenOfSpan(s, spans[k], a[k]) && TokenOfSpan(s, spans[k], b[k]);
      SignBodyUnique(a[k], b[k]);
    }
  }

  lemma {:induction false} SignBodyUnique(t: string, u: string)
    requires Unsigned(t) == Unsigned(u) && IsNegative(t) == IsNegative(u)
    ensures t == u
  {
    if IsNegative(t) { assert t == "-" + t[1..] && u == "-" + u[1..]; }
  }

  // ---- Facts

  const MIN_FACT_QUOTE_LEN := 20
  const FACT_STATUS_VERIFIED := "verified"
  const FACT_STATUS_HELD := "held"
  const HELD_NO_QUOTE := "no_quote"
  const HELD_BAD_SOURCE_INDEX := "bad_source_index"
  const HELD_QUOTE_TOO_SHORT := "quote_too_short"
  const HELD_QUOTE_NOT_IN_SOURCE := "quote_not_in_source"
  const HELD_NUMBER_NOT_IN_QUOTE := "number_not_in_quote"

  datatype FactItem = FactItem(point: string, sources: seq<int>, quote: string, status: string, heldReason: string)

  datatype Source = Source(url: string, snippet: string)

  // The text functions whose code is not modelled: white space, normalisation
  // (NFC, case folding, folding of runs of space), and the number regexp.
  datatype TextTools = TextTools(
    isSpace: char -> bool,
    normalize: string -> string,
    spans: string -> seq<Span>)
  {
    // The number regexp reports only number spans.
    ghost predicate Valid() {
      forall s: string, k: nat :: k < |spans(s)| ==> NumberSpan(s, spans(s)[k])
    }
  }

  predicate OccursAt(text: string, part: string, k: nat) {
    k + |part| <= |text| && text[k..k + |part|] == part
  }

  predicate Contains(text: string, part: string) {
    exists k :: 0 <= k <= |text| && OccursAt(text, part, k)
  }

  predicate Blank(tools: TextTools, s: string) { forall i :: 0 <= i < |s| ==> tools.isSpace(s[i]) }

  // The numbers of `point` are covered by those of `quote`.
  ghost predicate NumbersSupported(tools: TextTools, point: string, quote: string) {
    var p, q := tools.normalize(point), tools.normalize(quote);
    exists need, have :: TokensOfSpans(p, tools.spans(p), need) && TokensOfSpans(q, tools.spans(q), have)
      && Covered(need, have)
  }

  // factNumbersCovered.
  method FactNumbersCovered(tools: TextTools, point: string, quote: string) returns (covered: bool)
    requires tools.Valid()
    ensures covered <==> NumbersSupported(tools, point, quote)
  {
    var p, q := tools.normalize(point), tools.normalize(quote);
    var need := FactNumberTokens(p, tools.spans(p));
    var have := FactNumberTokens(q, tools.spans(q));
    covered := NumbersCovered(need, have);
    forall a, b | TokensOfSpans(p, tools.spans(p), a) && TokensOfSpans(q, tools.spans(q), b)
      ensures a == need && b == have
    {
      TokensUnique(p, tools.spans(p), a, need);
      TokensUnique(q, tools.spans(q), b, have);
    }
  }

  // The text a cited index stands for: fetched content, else the snippet.
  function SourceText(results: seq<Source>, contents: map<string, string>, i: nat): string
    requires i < |results|
  {
    var r := results[i];
    if r.url in contents && contents[r.url] != "" then contents[r.url] else r.snippet
  }

  // The quote occurs in some cited source that has text.
  ghost predicate QuoteFound(tools: TextTools, f: FactItem, results: seq<Source>, contents: map<string, string>) {
    exists idx <- f.sources :: 1 <= idx <= |results|
      && SourceText(results, contents, idx - 1) != ""
      && Contains(tools.normalize(SourceText(results, contents, idx - 1)), tools.normalize(f.quote))
  }

  predicate CitesKnownSource(f: FactItem, numSources: nat) {
    exists idx <- f.sources :: 1 <= idx <= numSources
  }

  // The verdict on a fact: the first check that fails holds it.
  ghost function Judge(tools: TextTools, f: FactItem, results: seq<Source>, contents: map<string, string>)
    : (string, string)
  {
    if Blank(tools, f.quote) then (FACT_STATUS_HELD, HELD_NO_QUOTE)
    else if !CitesKnownSource(f, |results|) then (FACT_STATUS_HELD, HELD_BAD_SOURCE_INDEX)
    else if |tools.normalize(f.quote)| < MIN_FACT_QUOTE_LEN then (FACT_STATUS_HELD, HELD_QUOTE_TOO_SHORT)
    else if !QuoteFound(tools, f, results, contents) then (FACT_STATUS_HELD, HELD_QUOTE_NOT_IN_SOURCE)
    else if !NumbersSupported(tools, f.point, f.quote) then (FACT_STATUS_HELD, HELD_NUMBER_NOT_IN_QUOTE)
    else (FACT_STATUS_VERIFIED, "")
  }

  // The quote is long enough, occurs in a cited source, and covers every number
  // of the point.
  ghost predicate Supported(tools: TextTools, f: FactItem, results: seq<Source>, contents: map<string, string>) {
    && !Blank(tools, f.quote)
    && |tools.normalize(f.quote)| >= 20
    && QuoteFound(tools, f, results, contents)
    && NumbersSupported(tools, f.point, f.quote)
  }

  // A fact is verified exactly when its quote is long enough, occurs in a cited
  // source, and covers every number of the point.
  lemma {:induction false} VerifiedMeansSupported(tools: TextTools, f: FactItem, results: seq<Source>,
                                                  contents: map<string, string>)
    ensures Judge(tools, f, results, contents).0 == FACT_STATUS_VERIFIED <==> Supported(tools, f, results, contents)
    ensures Judge(tools, f, results, contents).0 in {FACT_STATUS_VERIFIED, FACT_STATUS_HELD}
    ensures Judge(tools, f, results, contents).1 == "" <==> Judge(tools, f, results, contents).0 == FACT_STATUS_VERIFIED
  {
    assert FACT_STATUS_HELD[0] != FACT_STATUS_VERIFIED[0];
  }

  // What is searched for the quotes that cite source idx: its fetched content, or
  // its snippet when nothing was fetched. A source without either has no text.
  predicate Searched(results: seq<Source>, contents: map<string, string>, idx: int, text: string) {
    && 1 <= idx <= |results|
    && text != ""
    && var url := results[idx - 1].url;
      if url in contents && contents[url] != "" then text == contents[url] else text == results[idx - 1].snippet
  }

  ghost predicate QuotedFrom(tools: TextTools, f: FactItem, idx: int, text: string) {
    idx in f.sources && Contains(tools.normalize(text), tools.normalize(f.quote))
  }

  lemma {:induction false} FoundIsSearched(tools: TextTools, f: FactItem, results: seq<Source>,
                                           contents: map<string, string>)
    ensures QuoteFound(tools, f, results, contents) <==>
      exists idx, text :: Searched(results, contents, idx, text) && QuotedFrom(tools, f, idx, text)
  {
    if QuoteFound(tools, f, results, contents) {
      var idx :| idx in f.sources && 1 <= idx <= |results| && SourceText(results, contents, idx - 1) != ""
        && Contains(tools.normalize(SourceText(results, contents, idx - 1)), tools.normalize(f.quote));
      assert Searched(results, contents, idx, SourceText(results, contents, idx - 1));
      assert QuotedFrom(tools, f, idx, SourceText(results, contents, idx - 1));
    }
    if idx, text :| Searched(results, contents, idx, text) && QuotedFrom(tools, f, idx, text) {
      assert text == SourceText(results, contents, idx - 1);
    }
  }

  // The reason a fact is held for is the first of the five conditions it fails.
  lemma {:induction false} HeldFor(tools: TextTools, f: FactItem, results: seq<Source>, contents: map<string, string>)
    ensures var (status, reason) := Judge(tools, f, results, contents);
      var quoted := !Blank(tools, f.quote);
      var cites := exists idx :: idx in f.sources && 1 <= idx <= |results|;
      var long := |tools.normalize(f.quote)| >= 20;
      var found := exists idx, text :: Searched(results, contents, idx, text) && QuotedFrom(tools, f, idx, text);
      var covered := NumbersSupported(tools, f.point, f.quote);
      && ((status, reason) == ("held", "no_quote") <==> !quoted)
      && ((status, reason) == ("held", "bad_source_index") <==> quoted && !cites)
      && ((status, reason) == ("held", "quote_too_short") <==> quoted && cites && !long)
      && ((status, reason) == ("held", "quote_not_in_source") <==> quoted && cites && long && !found)
      && ((status, reason) == ("held", "number_not_in_quote") <==> quoted && cites && long && found && !covered)
      && ((status, reason) == ("verified", "") <==> quoted && cites && long && found && covered)
  {
    FoundIsSearched(tools, f, results, contents);
    ReasonsDiffer();
  }

  lemma {:induction false} ReasonsDiffer()
    ensures |"no_quote"| == 8 && |"bad_source_index"| == 16 && |"quote_too_short"| == 15
    ensures |"quote_not_in_source"| == 19 && |"number_not_in_quote"| == 19
    ensures "quote_not_in_source"[0] != "number_not_in_quote"[0]
  {}

  // haystacks[idx] is the normalised text of each source that has any.
  ghost predicate AreHaystacks(tools: TextTools, results: seq<Source>, contents: map<string, string>, upTo: nat,
                               haystacks: map<int, string>)
    requires upTo <= |results|
  {
    && (forall idx :: idx in haystacks <==> 1 <= idx <= upTo && SourceText(results, contents, idx - 1) != "")
    && (forall idx <- haystacks :: haystacks[idx] == tools.normalize(SourceText(results, contents, idx - 1)))
  }

  // verifyFact.
  method VerifyFact(tools: TextTools, f: FactItem, numSources: nat, haystacks: map<int, string>,
                    ghost results: seq<Source>, ghost contents: map<string, string>)
    returns (status: string, reason: string)
    requires tools.Valid() && numSources == |results|
    requires AreHaystacks(tools, results, contents, |results|, haystacks)
    ensures (status, reason) == Judge(tools, f, results, contents)
    ensures status == FACT_STATUS_VERIFIED <==> Supported(tools, f, results, contents)
    ensures reason == "" <==> status == FACT_STATUS_VERIFIED
  {
    VerifiedMeansSupported(tools, f, results, contents);
    if Blank(tools, f.quote) {
      return FACT_STATUS_HELD, HELD_NO_QUOTE;
    }
    var valid := false;
    for k := 0 to |f.sources|
      invariant !valid && forall j :: 0 <= j < k ==> !(1 <= f.sources[j] <= numSources)
    {
      if 1 <= f.sources[k] <= numSources {
        valid := true;
        assert f.sources[k] in f.sources;
        break;
      }
    }
    if !valid {
      return FACT_STATUS_HELD, HELD_BAD_SOURCE_INDEX;
    }
    var quote := tools.normalize(f.quote);
    if |quote| < MIN_FACT_QUOTE_LEN {
      return FACT_STATUS_HELD, HELD_QUOTE_TOO_SHORT;
    }
    var found := false;
    for k := 0 to |f.sources|
      invariant !found
      invariant forall j :: 0 <= j < k ==> !(f.sources[j] in haystacks && Contains(haystacks[f.sources[j]], quote))
    {
      if f.sources[k] in haystacks && Contains(haystacks[f.sources[k]], quote) {
        found := true;
        assert f.sources[k] in f.sources;
        break;
      }
    }
    if !found {
      return FACT_STATUS_HELD, HELD_QUOTE_NOT_IN_SOURCE;
    }
    var covered := FactNumbersCovered(tools, f.point, f.quote);
    if !covered {
      return FACT_STATUS_HELD, HELD_NUMBER_NOT_IN_QUOTE;
    }
    return FACT_STATUS_VERIFIED, "";
  }

  // verifyFacts annotates every fact in place and changes nothing else.
  method VerifyFacts(tools: TextTools, facts: array<FactItem>, results: seq<Source>, contents: map<string, string>)
    requires tools.Valid()
    modifies facts
    ensures forall i :: 0 <= i < facts.Length ==>
      var (status, reason) := Judge(tools, old(facts[i]), results, contents);
      facts[i] == old(facts[i]).(status := status, heldReason := reason)
  {
    if facts.Length == 0 {
      return;
    }
    var haystacks: map<int, string> := map[];
    for i := 0 to |results|
      invariant AreHaystacks(tools, results, contents, i, haystacks)
    {
      var h := if results[i].url in contents then contents[results[i].url] else "";
      if h == "" {
        h := results[i].snippet;
      }
      if h != "" {
        haystacks := haystacks[i + 1 := tools.normalize(h)];
      }
    }
    for i := 0 to facts.Length
      invariant forall j :: i <= j < facts.Length ==> facts[j] == old(facts[j])
      invariant forall j :: 0 <= j < i ==>
        var (status, reason) := Judge(tools, old(facts[j]), results, contents);
        facts[j] == old(facts[j]).(status := status, heldReason := reason)
    {
      var status, reason := VerifyFact(tools, facts[i], |results|, haystacks, results, contents);
      facts[i] := facts[i].(status := status, heldReason := reason);
    }
  }
}
