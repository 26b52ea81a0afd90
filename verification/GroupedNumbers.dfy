/** Digit grouping (llm/factverify.go): what the spellings of one number with and
    without thousands separators read as, and when one covers the other. */
module GroupedNumbers {
  import opened DecimalText
  import opened NumberForms

  function Sign(neg: bool): string { if neg then "-" else "" }

  // The digits of a number with a separator before every third digit from the right.
  function Grouped(d: string, sep: char): string {
    if |d| <= 3 then d else Grouped(d[..|d| - 3], sep) + [sep] + d[|d| - 3..]
  }

  // One more character of the text.
  lemma SplitMore(s: string, c: char)
    requires IsDigit(c) || IsSeparator(c)
    ensures Digits(s + [c]) == if IsDigit(c) then Digits(s) + [c] else Digits(s)
    ensures var p := Split(s);
      Split(s + [c]) ==
        if IsSeparator(c) then Pieces(p.groups + [""], p.seps + [c])
        else Pieces(p.groups[..|p.seps|] + [p.groups[|p.seps|] + [c]], p.seps)
  {
    assert (s + [c])[..|s|] == s;
  }

  lemma LongerLast(s: string, groups: seq<string>, seps: seq<char>, g: string, c: char)
    requires Split(s) == Pieces(groups + [g], seps) && IsDigit(c)
    ensures Split(s + [c]) == Pieces(groups + [g + [c]], seps)
  {
    SplitMore(s, c);
    assert |groups| == |seps|;
    assert (groups + [g])[..|groups|] == groups;
  }

  // One more group after a separator.
  lemma {:induction false} SplitAppend(a: string, c: char, g: string)
    requires IsSeparator(c) && AllDigits(g)
    ensures Split(a + [c] + g) == Pieces(Split(a).groups + [g], Split(a).seps + [c])
    ensures Digits(a + [c] + g) == Digits(a) + g
    decreases |g|, 0
  {
    if g == [] {
      SplitMore(a, c);
      assert a + [c] + g == a + [c];
    } else {
      SplitAppendMore(a, c, g[..|g| - 1], g[|g| - 1], g);
    }
  }

  lemma {:induction false} SplitAppendMore(a: string, c: char, front: string, last: char, g: string)
    requires IsSeparator(c) && AllDigits(front) && IsDigit(last) && g == front + [last]
    ensures Split(a + [c] + g) == Pieces(Split(a).groups + [g], Split(a).seps + [c])
    ensures Digits(a + [c] + g) == Digits(a) + g
    decreases |front|, 1
  {
    var s := a + [c] + front;
    SplitAppend(a, c, front);
    LongerLast(s, Split(a).groups, Split(a).seps + [c], front, last);
    SplitMore(s, last);
    assert a + [c] + g == s + [last];
    assert Digits(a) + g == Digits(a) + front + [last];
  }

  lemma {:induction false} DigitsOfDigits(d: string)
    requires AllDigits(d)
    ensures Digits(d) == d
  {
    if d != [] {
      DigitsOfDigits(d[..|d| - 1]);
      assert d == d[..|d| - 1] + [d[|d| - 1]];
    }
  }

  lemma DigitParts(d: string, n: nat)
    requires AllDigits(d) && n <= |d|
    ensures AllDigits(d[..n]) && AllDigits(d[n..]) && d[..n] + d[n..] == d
  {}

  // The groups of a grouped number: three digits each after the first.
  lemma {:induction false} GroupedShape(d: string, sep: char)
    requires AllDigits(d) && IsSeparator(sep)
    ensures var p := Split(Grouped(d, sep));
      && (forall k :: 1 <= k < |p.groups| ==> |p.groups[k]| == 3)
      && (|p.groups| > 1 <==> |d| > 3)
      && (forall c <- p.seps :: c == sep)
    ensures Digits(Grouped(d, sep)) == d
  {
    var n := |d| - 3;
    if n <= 0 {
      SplitDigits(d);
      DigitsOfDigits(d);
    } else {
      DigitParts(d, n);
      GroupedShape(d[..n], sep);
      SplitAppend(Grouped(d[..n], sep), sep, d[n..]);
    }
  }

  lemma {:induction false} GroupedBody(d: string, sep: char)
    requires AllDigits(d) && d != "" && IsSeparator(sep)
    ensures var g := Grouped(d, sep); g != "" && g[0] == d[0] && (forall c <- g :: IsDigit(c) || c == sep)
  {
    var n := |d| - 3;
    if n > 0 {
      DigitParts(d, n);
      GroupedBody(d[..n], sep);
      assert forall c <- d[n..] :: IsDigit(c);
    } else {
      assert forall c <- d :: IsDigit(c);
    }
  }

  lemma SignedBody(neg: bool, body: string)
    requires body != "" && body[0] != '-'
    ensures Unsigned(Sign(neg) + body) == body && IsNegative(Sign(neg) + body) == neg
  {}

  // Which tokens denote the integer of their digits, and which the decimal with
  // the last separator as its mark. The two readings differ unless all digits are
  // zero or nothing follows the last separator.
  lemma ReadingsExactly(neg: bool, body: string)
    requires body != "" && body[0] != '-'
    ensures var t, d, n := Sign(neg) + body, NatValue(Digits(body)), LastGroupLength(body);
      var integer, decimal, same := ReadsAsInteger(body), ReadsAsDecimal(body), d == 0 || n == 0;
      && (HasReading(t, Number(Scaled(neg, d, 0))) <==> integer || (decimal && same))
      && (HasReading(t, Number(Scaled(neg, d, n))) <==> decimal || (integer && same))
      && (HasReading(t, Version(t)) <==> !integer && !decimal)
  {
    SignedBody(neg, body);
    SameScale(neg, NatValue(Digits(body)), LastGroupLength(body));
  }

  lemma SameScale(neg: bool, d: nat, n: nat)
    ensures Scaled(neg, d, 0) == Scaled(neg, d, n) <==> d == 0 || n == 0
  {
    ScaledEqual(neg, d, 0, neg, d, n);
    if n > 0 { assert Pow10(n) >= 10; }
    if d > 0 && Pow10(n) > 1 { assert d * Pow10(n) > d; }
  }

  // ---- Coverage of a plain number by a grouped one, and of a grouped one by it

  predicate TokenBody(body: string) { body != "" && forall c <- body :: IsDigit(c) || IsSeparator(c) }

  lemma BodyIsToken(neg: bool, body: string)
    requires TokenBody(body)
    ensures Unsigned(Sign(neg) + body) == body && IsNegative(Sign(neg) + body) == neg
    ensures IsNumberToken(Sign(neg) + body)
  {
    assert body[0] in body;
    SignedBody(neg, body);
    forall i | 0 <= i < |body| ensures IsDigit(body[i]) || IsSeparator(body[i]) { assert body[i] in body; }
  }

  // The readings of a token, by its sign, its digits and what its body reads as.
  lemma ReadingsOf(neg: bool, body: string, d: string, n: nat, r: Reading)
    requires TokenBody(body) && Digits(body) == d && AllDigits(d) && LastGroupLength(body) == n
    requires ReadsAsInteger(body) || ReadsAsDecimal(body)
    ensures HasReading(Sign(neg) + body, r) <==>
      || (ReadsAsInteger(body) && r == Number(Scaled(neg, NatValue(d), 0)))
      || (ReadsAsDecimal(body) && r == Number(Scaled(neg, NatValue(d), n)))
  {
    BodyIsToken(neg, body);
  }

  lemma PlainBody(e: string)
    requires AllDigits(e) && e != ""
    ensures TokenBody(e) && Digits(e) == e
    ensures ReadsAsInteger(e) && !ReadsAsDecimal(e)
  {
    SplitDigits(e);
    DigitsOfDigits(e);
  }

  lemma PlainReadings(neg: bool, e: string, r: Reading)
    requires AllDigits(e) && e != ""
    ensures var t := Sign(neg) + e;
      IsNumberToken(t) && (HasReading(t, r) <==> r == Number(Scaled(neg, NatValue(e), 0)))
  {
    PlainBody(e);
    BodyIsToken(neg, e);
    ReadingsOf(neg, e, e, LastGroupLength(e), r);
  }

  lemma GroupedReadsAs(d: string, sep: char)
    requires AllDigits(d) && d != "" && IsSeparator(sep)
    ensures var body := Grouped(d, sep);
      && TokenBody(body)
      && ReadsAsInteger(body)
      && (ReadsAsDecimal(body) <==> |d| > 3 && sep != ' ')
      && (|d| > 3 ==> LastGroupLength(body) == 3)
  {
    GroupedShape(d, sep);
    GroupedBody(d, sep);
    var p := Split(Grouped(d, sep));
    if |p.groups| > 1 { assert p.seps[|p.groups| - 2] in p.seps; }
  }

  lemma GroupedReadings(neg: bool, d: string, sep: char, r: Reading)
    requires AllDigits(d) && d != "" && IsSeparator(sep)
    ensures var u := Sign(neg) + Grouped(d, sep);
      && IsNumberToken(u)
      && (HasReading(u, r) <==>
        || r == Number(Scaled(neg, NatValue(d), 0))
        || (|d| > 3 && sep != ' ' && r == Number(Scaled(neg, NatValue(d), 3))))
  {
    var body := Grouped(d, sep);
    GroupedReadsAs(d, sep);
    GroupedShape(d, sep);
    BodyIsToken(neg, body);
    ReadingsOf(neg, body, d, LastGroupLength(body), r);
  }

  lemma ScaledApart(neg: bool, e: nat, minus: bool, d: nat)
    ensures Scaled(neg, e, 0) == Scaled(minus, d, 0) <==> Signed(neg, e) == Signed(minus, d)
    ensures Scaled(neg, e, 0) == Scaled(minus, d, 3) <==> Signed(neg, e) * 1000 == Signed(minus, d)
  {
    ScaledEqual(neg, e, 0, minus, d, 0);
    ScaledEqual(neg, e, 0, minus, d, 3);
    assert Pow10(3) == 10 * Pow10(2) && Pow10(2) == 10 * Pow10(1);
  }

  lemma CoveredOne(t: string, u: string)
    ensures Covered([t], [u]) <==> ShareReading(t, u)
    ensures Covered([u], [t]) <==> ShareReading(t, u)
  {
    assert t in [t] && u in [u];
    assert ShareReading(t, u) <==> ShareReading(u, t);
  }

  // A plain and a grouped number cover each other exactly when they are the same
  // number, or a dot or comma before the last three digits makes the grouped one
  // a decimal of that value: "1,234" is covered by "1234" and by "1.234".
  lemma GroupedCovers(neg: bool, e: string, minus: bool, d: string, sep: char)
    requires AllDigits(e) && e != "" && AllDigits(d) && d != "" && sep in ",. "
    ensures var t, u := Sign(neg) + e, Sign(minus) + Grouped(d, sep);
      var m, n := Signed(neg, NatValue(e)), Signed(minus, NatValue(d));
      var same := m == n || (|d| > 3 && sep != ' ' && m * 1000 == n);
      && IsNumberToken(t) && IsNumberToken(u)
      && (Covered([t], [u]) <==> same) && (Covered([u], [t]) <==> same)
  {
    var r := Number(Scaled(neg, NatValue(e), 0));
    PlainReadings(neg, e, r);
    GroupedReadings(minus, d, sep, r);
    ScaledApart(neg, NatValue(e), minus, NatValue(d));
    forall q ensures IsReading(Sign(neg) + e, r, q) { PlainReadings(neg, e, q); }
    OnlyReading(Sign(neg) + e, Sign(minus) + Grouped(d, sep), r);
    CoveredOne(Sign(neg) + e, Sign(minus) + Grouped(d, sep));
  }

  // Of all readings, t has r and no other.
  ghost predicate IsReading(t: string, r: Reading, q: Reading) { HasReading(t, q) <==> q == r }

  lemma OnlyReading(t: string, u: string, r: Reading)
    requires forall q :: IsReading(t, r, q)
    ensures ShareReading(t, u) <==> HasReading(u, r)
  {
    assert IsReading(t, r, r);
    if q :| HasReading(t, q) && HasReading(u, q) { assert IsReading(t, r, q); }
  }

  // A grouped integer part and decimals after a mark have the reading the mark
  // gives them, whatever the separator, and cover the number in plain spelling.
  lemma GroupedDecimal(neg: bool, d: string, sep: char, mark: char, f: string)
    requires AllDigits(d) && d != "" && sep in ",. " && AllDigits(f) && mark in ".,"
    ensures var t, u := Sign(neg) + d + "." + f, Sign(neg) + Grouped(d, sep) + [mark] + f;
      && IsNumberToken(t) && IsNumberToken(u) && IsDecimal(t)
      && HasReading(t, Number(Value(t))) && HasReading(u, Number(Value(t)))
      && Covered([t], [u]) && Covered([u], [t])
  {
    var t, u := Sign(neg) + d + "." + f, Sign(neg) + Grouped(d, sep) + [mark] + f;
    PointReading(neg, d, f);
    GroupedMark(neg, d, sep, mark, f);
    assert ShareReading(t, u);
    CoveredOne(t, u);
  }

  // One more group after a mark that a decimal reading may have.
  lemma MarkReading(neg: bool, g: string, d: string, mark: char, f: string)
    requires TokenBody(g) && ReadsAsInteger(g) && Digits(g) == d && AllDigits(f) && mark in ".,"
    ensures AllDigits(d + f)
    ensures var u := Sign(neg) + (g + [mark] + f);
      IsNumberToken(u) && HasReading(u, Number(Scaled(neg, NatValue(d + f), |f|)))
  {
    var body := g + [mark] + f;
    SplitAppend(g, mark, f);
    assert TokenBody(body) by { assert forall c <- f :: IsDigit(c); }
    BodyIsToken(neg, body);
    MarkReadsAs(g, mark, f);
    ReadingsOf(neg, body, d + f, |f|, Number(Scaled(neg, NatValue(d + f), |f|)));
  }

  lemma MarkReadsAs(g: string, mark: char, f: string)
    requires ReadsAsInteger(g) && AllDigits(f) && mark in ".,"
    ensures ReadsAsDecimal(g + [mark] + f) && LastGroupLength(g + [mark] + f) == |f|
  {
    SplitAppend(g, mark, f);
  }

  lemma PointReading(neg: bool, d: string, f: string)
    requires AllDigits(d) && d != "" && AllDigits(f)
    ensures var t := Sign(neg) + d + "." + f;
      && IsNumberToken(t) && IsDecimal(t) && Value(t) == Scaled(neg, NatValue(d + f), |f|)
      && HasReading(t, Number(Value(t)))
  {
    SignedDecimal(neg, d, f);
    PlainBody(d);
    MarkReading(neg, d, d, '.', f);
    assert Sign(neg) + d + "." + f == Sign(neg) + (d + ['.'] + f);
  }

  lemma SignFirst(s: string, g: string, c: char, f: string)
    ensures s + g + [c] + f == s + (g + [c] + f)
  {}

  lemma GroupedMark(neg: bool, d: string, sep: char, mark: char, f: string)
    requires AllDigits(d) && d != "" && IsSeparator(sep) && AllDigits(f) && mark in ".,"
    ensures AllDigits(d + f)
    ensures var u := Sign(neg) + Grouped(d, sep) + [mark] + f;
      IsNumberToken(u) && HasReading(u, Number(Scaled(neg, NatValue(d + f), |f|)))
  {
    GroupedReadsAs(d, sep);
    GroupedShape(d, sep);
    MarkReading(neg, Grouped(d, sep), d, mark, f);
    SignFirst(Sign(neg), Grouped(d, sep), mark, f);
  }
}
