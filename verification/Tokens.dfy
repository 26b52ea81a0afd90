/** Token estimates and token budgets (text/token.go), over the reals. */
module Tokens {
  import opened RealFacts
  import opened Utf8

  // math.Ceil.
  function Ceil(x: real): (c: int)
    ensures (c - 1) as real < x <= c as real
  {
    -((-x).Floor)
  }

  // Conversion to int, toward zero.
  function Trunc(x: real): (t: int)
    ensures x >= 0.0 ==> t as real <= x < (t + 1) as real
    ensures x <= 0.0 ==> (t - 1) as real < x <= t as real
  {
    if x >= 0.0 then x.Floor else -((-x).Floor)
  }

  function EstimateTokens(text: Bytes, charsPerToken: real): (tokens: int)
    ensures tokens >= 0
  {
    if text == [] || charsPerToken <= 0.0 then 0
    else
      var quotient := |text| as real / charsPerToken;
      QuotientPositive(|text| as real, charsPerToken);
      Ceil(quotient)
  }

  lemma {:induction false} QuotientPositive(x: real, y: real)
    requires x > 0.0 && y > 0.0
    ensures x / y > 0.0 && (x / y) * y == x
  {}

  // The estimate is the least number of tokens whose bytes cover the text.
  lemma EstimateIsLeast(text: Bytes, charsPerToken: real, k: int)
    requires charsPerToken > 0.0 && k >= 0
    ensures EstimateTokens(text, charsPerToken) <= k <==> |text| as real <= k as real * charsPerToken
  {
    if text == [] {
      ProductOrder(0.0, k as real, charsPerToken);
    } else {
      var n := |text| as real;
      var quotient := n / charsPerToken;
      QuotientPositive(n, charsPerToken);
      if quotient <= k as real {
        ProductOrder(quotient, k as real, charsPerToken);
      } else {
        ProductStrict(k as real, quotient, charsPerToken);
      }
    }
  }

  // Nothing is estimated for an empty text, and for any text without a positive ratio.
  lemma EstimateIsZero(text: Bytes, charsPerToken: real)
    ensures EstimateTokens(text, charsPerToken) == 0 <==> |text| == 0 || charsPerToken <= 0.0
  {
    if text != [] && charsPerToken > 0.0 { EstimateIsLeast(text, charsPerToken, 0); }
  }

  function MaxBytes(maxTokens: int, charsPerToken: real): int { Trunc(maxTokens as real * charsPerToken) }

  // The source slices with a negative bound outside this condition.
  predicate Sliceable(text: Bytes, maxTokens: int, charsPerToken: real) {
    maxTokens <= 0 || text == [] || MaxBytes(maxTokens, charsPerToken) >= 0
  }

  // A non-negative ratio is always safe.
  lemma {:induction false} RatioIsSafe(text: Bytes, maxTokens: int, charsPerToken: real)
    requires charsPerToken >= 0.0
    ensures Sliceable(text, maxTokens, charsPerToken)
  {
    if maxTokens > 0 { ProductNonNegative(maxTokens as real, charsPerToken); }
  }

  // The text cut to a budget.
  function Budgeted(text: Bytes, maxTokens: int, charsPerToken: real): Bytes
    requires Sliceable(text, maxTokens, charsPerToken)
  {
    if maxTokens <= 0 || text == [] then [] else Cut(text, MaxBytes(maxTokens, charsPerToken))
  }

  method TruncateToTokenBudget(text: Bytes, maxTokens: int, charsPerToken: real) returns (out: Bytes)
    requires Sliceable(text, maxTokens, charsPerToken)
    ensures out == Budgeted(text, maxTokens, charsPerToken)
    ensures maxTokens <= 0 ==> out == []
  {
    if maxTokens <= 0 || text == [] {
      return [];
    }
    var maxBytes := Trunc(maxTokens as real * charsPerToken);
    if |text| <= maxBytes {
      return text;
    }
    ghost var m := maxBytes;
    while maxBytes > 0 && !RuneStart(text[maxBytes])
      invariant 0 <= maxBytes < |text| && CutAt(text, maxBytes) == CutAt(text, m)
    {
      maxBytes := maxBytes - 1;
    }
    return text[..maxBytes];
  }

  // For valid UTF-8, a positive budget and a ratio of at least 0, the result is
  // the longest valid prefix of at most floor(maxTokens * charsPerToken) bytes,
  // backing up at most three bytes.
  lemma {:induction false} BudgetedIsLongest(text: Bytes, maxTokens: int, charsPerToken: real)
    requires Valid(text) && maxTokens > 0 && charsPerToken >= 0.0
    ensures Sliceable(text, maxTokens, charsPerToken)
    ensures var limit := (maxTokens as real * charsPerToken).Floor;
      var out := Budgeted(text, maxTokens, charsPerToken);
      && out <= text && |out| <= limit && Valid(out)
      && (forall i :: 0 <= i <= limit && i <= |text| && Valid(text[..i]) ==> i <= |out|)
      && (|text| > limit ==> |out| >= limit - 3)
  {
    RatioIsSafe(text, maxTokens, charsPerToken);
    ProductNonNegative(maxTokens as real, charsPerToken);
    LongestOf(text, maxTokens, MaxBytes(maxTokens, charsPerToken));
  }

  lemma LongestOf(text: Bytes, maxTokens: int, limit: nat)
    requires Valid(text) && maxTokens > 0
    ensures var out := if text == [] then [] else Cut(text, limit);
      && out <= text && |out| <= limit && Valid(out)
      && (forall i :: 0 <= i <= limit && i <= |text| && Valid(text[..i]) ==> i <= |out|)
      && (|text| > limit ==> |out| >= limit - 3)
  {
    CutIsLongest(text, limit);
  }

  // The two cuts of the repository agree on the same byte limit exactly when
  // it is positive or there is nothing to cut.
  lemma {:induction false} CutsAgree(text: Bytes, maxTokens: int, charsPerToken: real)
    requires maxTokens > 0 && Sliceable(text, maxTokens, charsPerToken)
    ensures Budgeted(text, maxTokens, charsPerToken) == TruncatedTo(text, MaxBytes(maxTokens, charsPerToken))
       <==> MaxBytes(maxTokens, charsPerToken) > 0 || text == []
  {
    AgreeAt(text, MaxBytes(maxTokens, charsPerToken));
  }

  lemma {:induction false} AgreeAt(text: Bytes, limit: int)
    requires text == [] || limit >= 0
    ensures (if text == [] then [] else Cut(text, limit)) == TruncatedTo(text, limit) <==> limit > 0 || text == []
  {}

  // At a byte limit of 0 one cut gives nothing and the other the whole text.
  lemma ZeroLimit()
    ensures MaxBytes(1, 0.0) == 0 && Sliceable([0x61], 1, 0.0)
    ensures Budgeted([0x61], 1, 0.0) == [] && TruncatedTo([0x61], 0) == [0x61]
  {
    assert CutAt([0x61], 0) == 0;
  }

  // A text cut to a budget is estimated within it, for every text and ratio.
  lemma EstimateWithinBudget(text: Bytes, maxTokens: int, charsPerToken: real)
    requires Sliceable(text, maxTokens, charsPerToken)
    ensures EstimateTokens(Budgeted(text, maxTokens, charsPerToken), charsPerToken)
         <= if maxTokens > 0 then maxTokens else 0
  {
    if maxTokens > 0 && charsPerToken > 0.0 && text != [] {
      var out := Budgeted(text, maxTokens, charsPerToken);
      ProductNonNegative(maxTokens as real, charsPerToken);
      CutFits(text, MaxBytes(maxTokens, charsPerToken));
      EstimateIsLeast(out, charsPerToken, maxTokens);
    }
  }

  lemma {:induction false} CutFits(text: Bytes, m: nat)
    ensures |Cut(text, m)| <= m
  {}
}
