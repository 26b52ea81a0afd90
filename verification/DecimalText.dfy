/** Decimal text and its value (llm/factverify.go): the canonical rendering
    `canonicalNumber` is a complete normal form for the rational value. */
module DecimalText {

  predicate IsDigit(c: char) { '0' <= c <= '9' }

  predicate AllDigits(s: string) { forall i :: 0 <= i < |s| ==> IsDigit(s[i]) }

  function DigitValue(c: char): nat
    requires IsDigit(c)
  {
    c as int - '0' as int
  }

  // The value of a digit string; the empty string has value zero.
  function NatValue(s: string): nat
    requires AllDigits(s)
  {
    if s == [] then 0 else 10 * NatValue(s[..|s| - 1]) + DigitValue(s[|s| - 1])
  }

  function Pow10(n: nat): (p: nat)
    ensures p > 0
  {
    if n == 0 then 1 else 10 * Pow10(n - 1)
  }

  // ---- strings.TrimLeft(s, "0"), strings.TrimRight(s, "0"), strings.Cut(s, ".")

  function TrimLeftZeros(s: string): string {
    if s != [] && s[0] == '0' then TrimLeftZeros(s[1..]) else s
  }

  function TrimRightZeros(s: string): string {
    if s != [] && s[|s| - 1] == '0' then TrimRightZeros(s[..|s| - 1]) else s
  }

  datatype CutResult = CutResult(before: string, after: string, found: bool)

  function CutPoint(s: string): CutResult {
    if s == [] then CutResult("", "", false)
    else if s[0] == '.' then CutResult("", s[1..], true)
    else var c := CutPoint(s[1..]); c.(before := [s[0]] + c.before)
  }

  predicate IsNegative(v: string) { v != [] && v[0] == '-' }

  function Unsigned(v: string): string { if IsNegative(v) then v[1..] else v }

  // canonicalNumber.
  function CanonicalNumber(v: string): string {
    var cut := CutPoint(Unsigned(v));
    var trimmed := TrimLeftZeros(cut.before);
    var intPart := if trimmed == "" then "0" else trimmed;
    var frac := if cut.found then TrimRightZeros(cut.after) else "";
    var out := if frac != "" then intPart + "." + frac else intPart;
    if IsNegative(v) && out != "0" then "-" + out else out
  }

  // ---- What the text means

  // An optional minus, then digits with at most one point among them.
  predicate IsDecimal(v: string) {
    var cut := CutPoint(Unsigned(v));
    AllDigits(cut.before) && AllDigits(cut.after)
  }

  function Signed(neg: bool, digits: int): int { if neg then -digits else digits }

  function Ratio(n: int, d: nat): real
    requires d > 0
  {
    n as real / d as real
  }

  function Scaled(neg: bool, digits: nat, scale: nat): real {
    Ratio(Signed(neg, digits), Pow10(scale))
  }

  // The rational number a decimal string denotes.
  function Value(v: string): real
    requires IsDecimal(v)
  {
    var cut := CutPoint(Unsigned(v));
    Scaled(IsNegative(v), NatValue(cut.before + cut.after), |cut.after|)
  }

  // ---- Digit strings

  lemma {:induction false} NatValueConcat(s: string, t: string)
    requires AllDigits(s) && AllDigits(t)
    ensures NatValue(s + t) == NatValue(s) * Pow10(|t|) + NatValue(t)
  {
    if t == [] {
      assert s + t == s;
    } else {
      var front := t[..|t| - 1];
      NatValueConcat(s, front);
      assert (s + t)[..|s + t| - 1] == s + front;
      assert Pow10(|t|) == 10 * Pow10(|front|);
      assert 10 * (NatValue(s) * Pow10(|front|)) == NatValue(s) * Pow10(|t|);
    }
  }

  lemma {:induction false} NatValueBound(s: string)
    requires AllDigits(s)
    ensures NatValue(s) < Pow10(|s|)
  {
    if s != [] { NatValueBound(s[..|s| - 1]); }
  }

  // A leading digit other than zero fixes the number of digits.
  lemma {:induction false} NatValueLowerBound(s: string)
    requires AllDigits(s) && s != [] && s[0] != '0'
    ensures Pow10(|s| - 1) <= NatValue(s)
  {
    if |s| > 1 { NatValueLowerBound(s[..|s| - 1]); }
  }

  lemma {:induction false} Pow10Monotone(m: nat, n: nat)
    requires m <= n
    ensures Pow10(m) <= Pow10(n)
  {
    if m < n { Pow10Monotone(m, n - 1); }
  }

  lemma {:induction false} Pow10Add(m: nat, n: nat, sum: nat)
    requires sum == m + n
    ensures Pow10(sum) == Pow10(m) * Pow10(n)
  {
    if n > 0 {
      Pow10Add(m, n - 1, sum - 1);
      assert 10 * (Pow10(m) * Pow10(n - 1)) == Pow10(m) * Pow10(n);
    }
  }

  lemma {:induction false} SameLengthSameValue(s: string, t: string)
    requires AllDigits(s) && AllDigits(t) && |s| == |t|
    requires NatValue(s) == NatValue(t)
    ensures s == t
  {
    if s != [] {
      var sf, tf := s[..|s| - 1], t[..|t| - 1];
      assert DigitValue(s[|s| - 1]) == NatValue(s) % 10 == DigitValue(t[|t| - 1]);
      SameLengthSameValue(sf, tf);
      assert s == sf + [s[|s| - 1]] && t == tf + [t[|t| - 1]];
    }
  }

  // "0", or digits that do not start with a zero.
  predicate NoLeadingZero(s: string) {
    AllDigits(s) && s != [] && (s == "0" || s[0] != '0')
  }

  lemma NoLeadingZeroUnique(s: string, t: string)
    requires NoLeadingZero(s) && NoLeadingZero(t)
    requires NatValue(s) == NatValue(t)
    ensures s == t
  {
    ZeroIsZero(s);
    ZeroIsZero(t);
    if s != "0" && t != "0" {
      LongerIsLarger(s, t);
      LongerIsLarger(t, s);
      SameLengthSameValue(s, t);
    }
  }

  lemma {:induction false} LongerIsLarger(s: string, t: string)
    requires AllDigits(s) && NoLeadingZero(t) && t != "0"
    ensures |s| < |t| ==> NatValue(s) < NatValue(t)
  {
    if |s| < |t| {
      NatValueBound(s);
      NatValueLowerBound(t);
      Pow10Monotone(|s|, |t| - 1);
    }
  }

  lemma {:induction false} ZeroIsZero(s: string)
    requires NoLeadingZero(s)
    ensures NatValue(s) == 0 <==> s == "0"
  {
    if s == "0" {
      assert s[..0] == "";
    } else {
      NatValueLowerBound(s);
    }
  }

  // ---- Trimming keeps the value

  lemma {:induction false} TrimLeftValue(s: string)
    requires AllDigits(s)
    ensures AllDigits(TrimLeftZeros(s))
    ensures NatValue(TrimLeftZeros(s)) == NatValue(s)
    ensures TrimLeftZeros(s) == [] || TrimLeftZeros(s)[0] != '0'
  {
    if s != [] && s[0] == '0' {
      TrimLeftValue(s[1..]);
      assert s == "0" + s[1..];
      assert NatValue("0") == 0 by { assert "0"[..0] == ""; }
      NatValueConcat("0", s[1..]);
    }
  }

  lemma {:induction false} TrimRightValue(s: string)
    requires AllDigits(s)
    ensures var t := TrimRightZeros(s);
      && AllDigits(t)
      && NatValue(s) * Pow10(|t|) == NatValue(t) * Pow10(|s|)
      && (t == [] || t[|t| - 1] != '0')
  {
    if s != [] && s[|s| - 1] == '0' {
      var front, t := s[..|s| - 1], TrimRightZeros(s);
      TrimRightValue(front);
      TimesTen(NatValue(front), Pow10(|t|), NatValue(t), Pow10(|front|), NatValue(s), Pow10(|s|));
    }
  }

  lemma {:induction false} TimesTen(a: nat, p: nat, b: nat, q: nat, a10: nat, q10: nat)
    requires a * p == b * q && a10 == 10 * a && q10 == 10 * q
    ensures a10 * p == b * q10
  {
    calc {
      a10 * p;
      10 * (a * p);
      10 * (b * q);
      b * q10;
    }
  }

  // ---- Rational equality without division

  lemma {:induction false} ScaledEqual(neg1: bool, d1: nat, k1: nat, neg2: bool, d2: nat, k2: nat)
    ensures Scaled(neg1, d1, k1) == Scaled(neg2, d2, k2)
      <==> d1 * Pow10(k2) == d2 * Pow10(k1) && (neg1 == neg2 || d1 == 0)
  {
    SignedRatioEqual(neg1, d1, Pow10(k1), neg2, d2, Pow10(k2));
  }

  lemma {:induction false} SignedRatioEqual(neg1: bool, d1: nat, p1: nat, neg2: bool, d2: nat, p2: nat)
    requires p1 > 0 && p2 > 0
    ensures Ratio(Signed(neg1, d1), p1) == Ratio(Signed(neg2, d2), p2)
      <==> d1 * p2 == d2 * p1 && (neg1 == neg2 || d1 == 0)
  {
    RatioEqual(Signed(neg1, d1), p1, Signed(neg2, d2), p2);
    SignedProducts(neg1, d1, p2, neg2, d2, p1);
  }

  lemma {:induction false} RatioEqual(n1: int, p1: nat, n2: int, p2: nat)
    requires p1 > 0 && p2 > 0
    ensures Ratio(n1, p1) == Ratio(n2, p2) <==> n1 * p2 == n2 * p1
  {
    CrossMultiply(n1 as real, p1 as real, n2 as real, p2 as real);
    CastMultiply(n1, p2);
    CastMultiply(n2, p1);
  }

  lemma {:induction false} SignedProducts(neg1: bool, d1: nat, p2: nat, neg2: bool, d2: nat, p1: nat)
    requires p1 > 0 && p2 > 0
    ensures Signed(neg1, d1) * p2 == Signed(neg2, d2) * p1
      <==> d1 * p2 == d2 * p1 && (neg1 == neg2 || d1 == 0)
  {
    ProductPositive(d1, p2);
    ProductPositive(d2, p1);
    assert Signed(true, d1) * p2 == -(d1 * p2);
    assert Signed(true, d2) * p1 == -(d2 * p1);
  }

  lemma {:induction false} ProductPositive(d: nat, p: nat)
    requires p > 0
    ensures d * p >= 0
    ensures d * p == 0 <==> d == 0
  {
    if d > 0 { ProductAtLeast(d, p); }
  }

  lemma {:induction false} CastMultiply(a: int, b: int)
    ensures (a * b) as real == (a as real) * (b as real)
  {}

  lemma {:induction false} CrossMultiply(n1: real, p1: real, n2: real, p2: real)
    requires p1 > 0.0 && p2 > 0.0
    ensures n1 / p1 == n2 / p2 <==> n1 * p2 == n2 * p1
  {
    var q1, q2 := n1 / p1, n2 / p2;
    assert q1 * p1 == n1 && q2 * p2 == n2;
    assert n1 * p2 == q1 * (p1 * p2) && n2 * p1 == q2 * (p1 * p2);
    assert p1 * p2 > 0.0;
    if q1 * (p1 * p2) == q2 * (p1 * p2) {
      assert (q1 - q2) * (p1 * p2) == 0.0;
    }
  }

  // ---- The canonical form

  // What canonicalNumber renders: no leading zero, no trailing zero after the
  // point, no point without a fraction, and no negative zero.
  predicate IsCanonical(s: string) {
    var cut := CutPoint(Unsigned(s));
    && NoLeadingZero(cut.before)
    && AllDigits(cut.after)
    && (cut.found ==> cut.after != "" && cut.after[|cut.after| - 1] != '0')
    && (IsNegative(s) ==> Unsigned(s) != "0")
  }

  predicate NoPoint(s: string) { forall i :: 0 <= i < |s| ==> s[i] != '.' }

  lemma {:induction false} CutShape(s: string)
    ensures var c := CutPoint(s);
      && NoPoint(c.before)
      && s == c.before + (if c.found then "." + c.after else c.after)
      && (!c.found ==> c.after == "")
  {
    if s != [] && s[0] != '.' { CutShape(s[1..]); }
  }

  lemma {:induction false} CutJoined(before: string, after: string)
    requires NoPoint(before)
    ensures CutPoint(before + "." + after) == CutResult(before, after, true)
    ensures CutPoint(before) == CutResult(before, "", false)
  {
    if before == [] {
      assert before + "." + after == "." + after;
    } else {
      CutJoined(before[1..], after);
      assert (before + "." + after)[1..] == before[1..] + "." + after;
      assert before == [before[0]] + before[1..];
    }
  }

  // The parts the rendering is assembled from, and what they parse back to.
  function Render(neg: bool, intPart: string, frac: string): string {
    (if neg then "-" else "") + intPart + (if frac != "" then "." + frac else "")
  }

  lemma RenderParts(neg: bool, intPart: string, frac: string)
    requires AllDigits(intPart) && intPart != ""
    ensures var r := Render(neg, intPart, frac);
      && IsNegative(r) == neg
      && CutPoint(Unsigned(r)) == CutResult(intPart, frac, frac != "")
  {
    CutJoined(intPart, frac);
    var body := intPart + (if frac != "" then "." + frac else "");
    assert body == if frac != "" then intPart + "." + frac else intPart;
    assert body[0] == intPart[0];
    assert Render(neg, intPart, frac) == (if neg then "-" else "") + body;
    assert Unsigned(Render(neg, intPart, frac)) == body;
  }

  lemma CanonicalIsRender(s: string)
    requires IsCanonical(s)
    ensures var c := CutPoint(Unsigned(s)); s == Render(IsNegative(s), c.before, c.after)
  {
    CutShape(Unsigned(s));
  }

  function CanonicalInt(before: string): string {
    var trimmed := TrimLeftZeros(before);
    if trimmed == "" then "0" else trimmed
  }

  // canonicalNumber taken apart: which digits it renders, and under which sign.
  lemma CanonicalParts(v: string)
    requires IsDecimal(v)
    ensures var cut := CutPoint(Unsigned(v));
      var i, f := CanonicalInt(cut.before), TrimRightZeros(cut.after);
      CanonicalNumber(v) == Render(IsNegative(v) && !(i == "0" && f == ""), i, f)
  {
    var cut := CutPoint(Unsigned(v));
    CutShape(Unsigned(v));
    var i, f := CanonicalInt(cut.before), TrimRightZeros(cut.after);
    assert (if cut.found then TrimRightZeros(cut.after) else "") == f;
    RenderOut(i, f);
  }

  lemma {:induction false} RenderOut(i: string, f: string)
    requires i != ""
    ensures var out := if f != "" then i + "." + f else i;
      && (out == "0" <==> i == "0" && f == "")
      && Render(false, i, f) == out
      && Render(true, i, f) == "-" + out
  {
    var out := if f != "" then i + "." + f else i;
    assert f != "" ==> |out| >= 2;
    assert "" + i == i && i + "" == i;
    assert "-" + i + "" == "-" + i;
    assert "-" + i + ("." + f) == "-" + (i + "." + f);
  }

  lemma CanonicalDigits(before: string, after: string)
    requires AllDigits(before) && AllDigits(after)
    ensures var i, f := CanonicalInt(before), TrimRightZeros(after);
      && NoLeadingZero(i) && AllDigits(f) && (f == "" || f[|f| - 1] != '0')
      && NatValue(i + f) * Pow10(|after|) == NatValue(before + after) * Pow10(|f|)
  {
    TrimLeftValue(before);
    TrimRightValue(after);
    assert NatValue("0") == 0 by { assert "0"[..0] == ""; }
    TrimmedValue(before, after, CanonicalInt(before), TrimRightZeros(after));
  }

  lemma {:induction false} TrimmedValue(before: string, after: string, i: string, f: string)
    requires AllDigits(before) && AllDigits(after) && AllDigits(i) && AllDigits(f)
    requires NatValue(i) == NatValue(before)
    requires NatValue(after) * Pow10(|f|) == NatValue(f) * Pow10(|after|)
    ensures NatValue(i + f) * Pow10(|after|) == NatValue(before + after) * Pow10(|f|)
  {
    NatValueConcat(i, f);
    NatValueConcat(before, after);
    ScaleUp(NatValue(i), NatValue(before), NatValue(f), NatValue(after), Pow10(|f|), Pow10(|after|),
            NatValue(i + f), NatValue(before + after));
  }

  lemma {:induction false} ScaleUp(i: nat, b: nat, f: nat, a: nat, pf: nat, pa: nat, x: nat, y: nat)
    requires i == b && a * pf == f * pa
    requires x == i * pf + f && y == b * pa + a
    ensures x * pa == y * pf
  {
    calc {
      x * pa;
      (i * pf + f) * pa;
      (i * pa) * pf + f * pa;
      (i * pa + a) * pf;
      y * pf;
    }
  }

  lemma {:induction false} RenderIsCanonical(neg: bool, intPart: string, frac: string)
    requires NoLeadingZero(intPart) && AllDigits(frac)
    requires frac == "" || frac[|frac| - 1] != '0'
    requires neg ==> !(intPart == "0" && frac == "")
    ensures var r := Render(neg, intPart, frac);
      && IsCanonical(r) && IsDecimal(r)
      && Value(r) == Scaled(neg, NatValue(intPart + frac), |frac|)
  {
    RenderParts(neg, intPart, frac);
    CutJoined("0", "");
  }

  // canonicalNumber keeps the value, and what it renders is canonical.
  lemma CanonicalKeepsValue(v: string)
    requires IsDecimal(v)
    ensures IsCanonical(CanonicalNumber(v)) && IsDecimal(CanonicalNumber(v))
    ensures Value(CanonicalNumber(v)) == Value(v)
  {
    var cut := CutPoint(Unsigned(v));
    var intPart, frac := CanonicalInt(cut.before), TrimRightZeros(cut.after);
    var neg := IsNegative(v) && !(intPart == "0" && frac == "");
    CanonicalParts(v);
    CanonicalDigits(cut.before, cut.after);
    RenderIsCanonical(neg, intPart, frac);
    SameScaled(IsNegative(v), intPart, frac, cut.before, cut.after);
  }

  lemma {:induction false} SameScaled(neg: bool, i: string, f: string, before: string, after: string)
    requires NoLeadingZero(i) && AllDigits(f) && AllDigits(before) && AllDigits(after)
    requires f == "" || f[|f| - 1] != '0'
    requires NatValue(i + f) * Pow10(|after|) == NatValue(before + after) * Pow10(|f|)
    ensures Scaled(neg && !(i == "0" && f == ""), NatValue(i + f), |f|)
         == Scaled(neg, NatValue(before + after), |after|)
  {
    ZeroDigits(i, f);
    ScaledEqual(neg && !(i == "0" && f == ""), NatValue(i + f), |f|, neg, NatValue(before + after), |after|);
  }

  // A canonical digit part stands for zero only as "0" without a fraction.
  lemma ZeroDigits(intPart: string, frac: string)
    requires NoLeadingZero(intPart) && AllDigits(frac)
    requires frac == "" || frac[|frac| - 1] != '0'
    ensures NatValue(intPart + frac) == 0 <==> intPart == "0" && frac == ""
  {
    ZeroIsZero(intPart);
    NatValueConcat(intPart, frac);
    ProductPositive(NatValue(intPart), Pow10(|frac|));
    if frac != "" { assert NatValue(frac) > 0; }
  }

  // A number has one canonical spelling.
  lemma CanonicalUnique(s: string, t: string)
    requires IsCanonical(s) && IsCanonical(t)
    requires Value(s) == Value(t)
    ensures s == t
  {
    var cs, ct := CutPoint(Unsigned(s)), CutPoint(Unsigned(t));
    CutShape(Unsigned(s));
    CutShape(Unsigned(t));
    CanonicalIsRender(s);
    CanonicalIsRender(t);
    EqualPartsFromValue(IsNegative(s), cs.before, cs.after, IsNegative(t), ct.before, ct.after);
    assert Unsigned(s) == Unsigned(t);
  }

  lemma EqualPartsFromValue(neg1: bool, i1: string, f1: string, neg2: bool, i2: string, f2: string)
    requires NoLeadingZero(i1) && AllDigits(f1) && (f1 == "" || f1[|f1| - 1] != '0')
    requires NoLeadingZero(i2) && AllDigits(f2) && (f2 == "" || f2[|f2| - 1] != '0')
    requires Scaled(neg1, NatValue(i1 + f1), |f1|) == Scaled(neg2, NatValue(i2 + f2), |f2|)
    ensures i1 == i2 && f1 == f2
    ensures neg1 == neg2 || (i1 == "0" && f1 == "")
  {
    ScaledEqual(neg1, NatValue(i1 + f1), |f1|, neg2, NatValue(i2 + f2), |f2|);
    ZeroDigits(i1, f1);
    FractionLengths(i1, f1, i2, f2);
    FractionLengths(i2, f2, i1, f1);
    SamePartsFromValue(i1, f1, i2, f2);
  }

  // The longer fraction would have to end in a zero.
  lemma {:induction false} FractionLengths(i1: string, f1: string, i2: string, f2: string)
    requires AllDigits(i1) && AllDigits(f1) && AllDigits(i2) && AllDigits(f2)
    requires f2 == "" || f2[|f2| - 1] != '0'
    requires NatValue(i1 + f1) * Pow10(|f2|) == NatValue(i2 + f2) * Pow10(|f1|)
    ensures |f2| <= |f1|
  {
    if |f1| < |f2| {
      var d := |f2| - |f1|;
      Pow10Add(|f1|, d, |f2|);
      TenTimes(d);
      MultipleOfTen(NatValue(i1 + f1), NatValue(i2 + f2), Pow10(|f2|), Pow10(|f1|), Pow10(d));
      LastDigit(i2, f2);
      assert false;
    }
  }

  lemma {:induction false} TenTimes(d: nat)
    requires d > 0
    ensures Pow10(d) % 10 == 0
  {
    TenDivides(Pow10(d - 1), Pow10(d));
  }

  lemma TenDivides(p: nat, q: nat)
    requires q == 10 * p
    ensures q % 10 == 0
  {}

  lemma {:induction false} MultipleOfTen(a: nat, b: nat, p2: nat, p1: nat, pd: nat)
    requires p1 > 0 && p2 == p1 * pd && pd % 10 == 0 && a * p2 == b * p1
    ensures b % 10 == 0
  {
    var q := pd / 10;
    calc {
      b * p1;
      a * (p1 * pd);
      (a * pd) * p1;
    }
    CancelFactor(b, a * pd, p1);
    assert b == 10 * (a * q);
  }

  lemma {:induction false} LastDigit(i: string, f: string)
    requires AllDigits(i) && AllDigits(f) && f != "" && f[|f| - 1] != '0'
    ensures NatValue(i + f) % 10 != 0
  {
    var s := i + f;
    assert s[|s| - 1] == f[|f| - 1];
    assert NatValue(s) == 10 * NatValue(s[..|s| - 1]) + DigitValue(s[|s| - 1]);
  }

  lemma {:induction false} CancelFactor(x: int, y: int, p: nat)
    requires p > 0 && x * p == y * p
    ensures x == y
  {
    assert (x - y) * p == 0;
  }

  lemma {:induction false} SamePartsFromValue(i1: string, f1: string, i2: string, f2: string)
    requires NoLeadingZero(i1) && AllDigits(f1) && NoLeadingZero(i2) && AllDigits(f2)
    requires |f1| == |f2|
    requires NatValue(i1 + f1) * Pow10(|f2|) == NatValue(i2 + f2) * Pow10(|f1|)
    ensures i1 == i2 && f1 == f2
  {
    var p := Pow10(|f1|);
    CancelFactor(NatValue(i1 + f1), NatValue(i2 + f2), p);
    NatValueConcat(i1, f1);
    NatValueConcat(i2, f2);
    NatValueBound(f1);
    NatValueBound(f2);
    QuotientUnique(NatValue(i1), NatValue(f1), NatValue(i2), NatValue(f2), p);
    NoLeadingZeroUnique(i1, i2);
    SameLengthSameValue(f1, f2);
  }

  lemma {:induction false} QuotientUnique(q1: nat, r1: nat, q2: nat, r2: nat, p: nat)
    requires r1 < p && r2 < p && q1 * p + r1 == q2 * p + r2
    ensures q1 == q2 && r1 == r2
  {
    if q1 < q2 { QuotientOrder(q1, r1, q2, r2, p); }
    if q2 < q1 { QuotientOrder(q2, r2, q1, r1, p); }
  }

  lemma {:induction false} QuotientOrder(q1: nat, r1: nat, q2: nat, r2: nat, p: nat)
    requires r1 < p && q1 < q2
    ensures q1 * p + r1 < q2 * p + r2
  {
    var d := q2 - q1;
    ProductAtLeast(d, p);
    assert q2 * p == (q1 + d) * p == q1 * p + d * p;
  }

  lemma {:induction false} ProductAtLeast(d: nat, p: nat)
    requires d > 0
    ensures d * p >= p
  {
    if d > 1 {
      ProductAtLeast(d - 1, p);
      assert d * p == (d - 1) * p + p;
    }
  }

  // ---- Main results

  // canonicalNumber is a complete normal form: two decimal strings render alike
  // exactly when they denote the same rational number.
  lemma CanonicalComplete(v: string, w: string)
    requires IsDecimal(v) && IsDecimal(w)
    ensures CanonicalNumber(v) == CanonicalNumber(w) <==> Value(v) == Value(w)
  {
    CanonicalKeepsValue(v);
    CanonicalKeepsValue(w);
    if Value(v) == Value(w) { CanonicalUnique(CanonicalNumber(v), CanonicalNumber(w)); }
  }

  lemma {:induction false} ZeroText()
    ensures IsCanonical("0") && IsDecimal("0") && Value("0") == 0.0
    ensures !IsCanonical("-0")
  {
    CutJoined("0", "");
    assert "0" + "" == "0";
    ZeroIsZero("0");
    assert Unsigned("-0") == "0";
  }

  // Rendering twice changes nothing, and zero has no sign: the value is zero
  // exactly when "0" is rendered.
  lemma CanonicalIdempotent(v: string)
    requires IsDecimal(v)
    ensures CanonicalNumber(CanonicalNumber(v)) == CanonicalNumber(v)
    ensures CanonicalNumber(v) != "-0"
    ensures Value(v) == 0.0 <==> CanonicalNumber(v) == "0"
  {
    var c := CanonicalNumber(v);
    CanonicalKeepsValue(v);
    CanonicalComplete(c, v);
    ZeroText();
    if Value(c) == 0.0 { CanonicalUnique(c, "0"); }
  }
}
