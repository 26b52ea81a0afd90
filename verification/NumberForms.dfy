/** Number tokens and their readings (llm/factverify.go): splitting into digit
    groups, the canonical forms of each reading, and coverage of one token list
    by another. */
module NumberForms {
  import opened DecimalText
  import opened Texts

  const THOUSANDS_GROUP_LEN := 3

  predicate IsSeparator(c: char) { c == '.' || c == ',' || c == ' ' }

  datatype Pieces = Pieces(groups: seq<string>, seps: seq<char>)

  // The digit groups of a token body and the separators between them.
  function Split(body: string): (p: Pieces)
    ensures |p.groups| == |p.seps| + 1
  {
    if body == [] then Pieces([""], [])
    else
      var p := Split(body[..|body| - 1]);
      var c := body[|body| - 1];
      var n := |p.seps|;
      if IsSeparator(c) then Pieces(p.groups + [""], p.seps + [c])
      else Pieces(p.groups[..n] + [p.groups[n] + [c]], p.seps)
  }

  // Reading one more character extends the split.
  lemma SplitStep(body: string, start: nat, i: nat, groups: seq<string>, seps: seq<char>)
    requires start <= i < |body|
    requires Split(body[..i]) == Pieces(groups + [body[start..i]], seps)
    ensures Split(body[..i + 1]) ==
      if IsSeparator(body[i]) then Pieces(groups + [body[start..i]] + [""], seps + [body[i]])
      else Pieces(groups + [body[start..i + 1]], seps)
  {
    var front := body[..i + 1][..i];
    assert front == body[..i];
    assert body[start..i + 1] == body[start..i] + [body[i]];
    assert (groups + [body[start..i]])[..|seps|] == groups;
  }

  lemma SplitEnd(body: string, start: nat, groups: seq<string>, seps: seq<char>)
    requires start <= |body|
    requires Split(body[..|body|]) == Pieces(groups + [body[start..|body|]], seps)
    ensures Split(body) == Pieces(groups + [body[start..]], seps)
  {
    assert body[..|body|] == body;
  }

  // splitNumberToken.
  method SplitNumberToken(body: string) returns (groups: seq<string>, seps: seq<char>)
    ensures Pieces(groups, seps) == Split(body)
  {
    groups, seps := [], [];
    var start := 0;
    for i := 0 to |body|
      invariant 0 <= start <= i
      invariant Split(body[..i]) == Pieces(groups + [body[start..i]], seps)
    {
      SplitStep(body, start, i, groups, seps);
      if IsSeparator(body[i]) {
        groups := groups + [body[start..i]];
        seps := seps + [body[i]];
        start := i + 1;
        assert body[start..i + 1] == "";
      }
    }
    SplitEnd(body, start, groups, seps);
    groups := groups + [body[start..]];
  }

  // Writing the groups back with their separators.
  function Join(groups: seq<string>, seps: seq<char>): string
    requires |groups| == |seps| + 1
  {
    if seps == [] then groups[0]
    else Join(groups[..|seps|], seps[..|seps| - 1]) + [seps[|seps| - 1]] + groups[|seps|]
  }

  // Splitting loses nothing and leaves no separator inside a group.
  lemma {:induction false} SplitRoundTrip(body: string)
    ensures var p := Split(body);
      && Join(p.groups, p.seps) == body
      && (forall c <- p.seps :: IsSeparator(c))
      && (forall g <- p.groups :: NoSeparator(g))
  {
    if body != [] {
      var front, c := body[..|body| - 1], body[|body| - 1];
      SplitRoundTrip(front);
      var q, p := Split(front), Split(body);
      assert body == front + [c];
      if IsSeparator(c) {
        JoinSeparator(q.groups, q.seps, c);
      } else {
        JoinLast(q.groups, q.seps, c);
        LongerGroup(q.groups, |q.seps|, c);
      }
    }
  }

  lemma LongerGroup(groups: seq<string>, n: nat, c: char)
    requires n < |groups| && !IsSeparator(c) && forall g <- groups :: NoSeparator(g)
    ensures forall g <- groups[..n] + [groups[n] + [c]] :: NoSeparator(g)
  {
    assert groups[n] in groups;
  }

  lemma JoinSeparator(groups: seq<string>, seps: seq<char>, c: char)
    requires |groups| == |seps| + 1
    ensures Join(groups + [""], seps + [c]) == Join(groups, seps) + [c]
  {
    var more, later := groups + [""], seps + [c];
    assert more[..|later|] == groups && later[..|later| - 1] == seps;
    assert Join(more, later) == Join(groups, seps) + [c] + "";
  }

  predicate NoSeparator(g: string) { forall i :: 0 <= i < |g| ==> !IsSeparator(g[i]) }

  lemma {:induction false} JoinLast(groups: seq<string>, seps: seq<char>, c: char)
    requires |groups| == |seps| + 1
    ensures Join(groups[..|seps|] + [groups[|seps|] + [c]], seps) == Join(groups, seps) + [c]
  {
    var more := groups[..|seps|] + [groups[|seps|] + [c]];
    if seps != [] { assert more[..|seps|] == groups[..|seps|]; }
  }

  // ---- Readings of a token, independently of how they are rendered

  datatype Reading = Number(value: real) | Version(text: string)

  // The digits of a text, in order.
  function Digits(s: string): (d: string)
    ensures AllDigits(d)
  {
    if s == [] then ""
    else if IsDigit(s[|s| - 1]) then Digits(s[..|s| - 1]) + [s[|s| - 1]]
    else Digits(s[..|s| - 1])
  }

  // An optional minus, then only digits and separators: what the number regexp matches.
  predicate IsNumberToken(token: string) {
    forall i :: 0 <= i < |Unsigned(token)| ==> IsDigit(Unsigned(token)[i]) || IsSeparator(Unsigned(token)[i])
  }

  predicate ThreeDigitGroups(groups: seq<string>) {
    forall k :: 0 <= k < |groups| ==> |groups[k]| == THOUSANDS_GROUP_LEN
  }

  // allThreeDigit.
  method AllThreeDigit(groups: seq<string>) returns (all: bool)
    ensures all <==> forall k :: 0 <= k < |groups| ==> |groups[k]| == 3
  {
    for k := 0 to |groups|
      invariant ThreeDigitGroups(groups[..k])
    {
      if |groups[k]| != THOUSANDS_GROUP_LEN {
        return false;
      }
    }
    return true;
  }

  // A body reads as an integer when every group after the first has three digits,
  // and as a decimal when the groups between the first and the last have, and the
  // last separator is not a space.
  predicate ReadsAsInteger(body: string) {
    var groups := Split(body).groups;
    forall k :: 1 <= k < |groups| ==> |groups[k]| == 3
  }

  predicate ReadsAsDecimal(body: string) {
    var p := Split(body);
    var n := |p.groups|;
    n > 1 && p.seps[n - 2] != ' ' && forall k :: 1 <= k < n - 1 ==> |p.groups[k]| == 3
  }

  function LastGroupLength(body: string): nat {
    var groups := Split(body).groups;
    |groups[|groups| - 1]|
  }

  // All digits of the token in order make one integer; the decimal reading puts
  // the point before the last group.
  function IntegerReading(token: string): Reading {
    Number(Scaled(IsNegative(token), NatValue(Digits(Unsigned(token))), 0))
  }

  function DecimalReading(token: string): Reading {
    Number(Scaled(IsNegative(token), NatValue(Digits(Unsigned(token))), LastGroupLength(Unsigned(token))))
  }

  // What a token may denote. One with neither numeric reading is a version literal.
  ghost predicate HasReading(token: string, r: Reading) {
    var body := Unsigned(token);
    || (ReadsAsInteger(body) && r == IntegerReading(token))
    || (ReadsAsDecimal(body) && r == DecimalReading(token))
    || (!ReadsAsInteger(body) && !ReadsAsDecimal(body) && r == Version(token))
  }

  ghost predicate ShareReading(t: string, u: string) {
    exists r :: HasReading(t, r) && HasReading(u, r)
  }

  // ---- numberForms

  function SignText(token: string): string { if IsNegative(token) then "-" else "" }

  function NumberForms(token: string): seq<string> {
    var p := Split(Unsigned(token));
    var n := |p.groups|;
    var grouped :=
      if n > 1 && ThreeDigitGroups(p.groups[1..])
      then [CanonicalNumber(SignText(token) + Concat(p.groups))] else [];
    var forms := grouped +
      if n > 1 && p.seps[n - 2] != ' ' && ThreeDigitGroups(p.groups[1..n - 1])
      then [CanonicalNumber(SignText(token) + Concat(p.groups[..n - 1]) + "." + p.groups[n - 1])] else [];
    if forms != [] then forms
    else if n == 1 then [CanonicalNumber(token)]
    else [token]
  }

  ghost predicate Overlap(forms: string -> seq<string>, t: string, u: string) {
    exists f <- forms(t) :: f in forms(u)
  }

  // ---- Forms spell readings

  // How a reading is written: a number canonically, a version literally.
  ghost predicate Spells(f: string, r: Reading) {
    match r
    case Number(value) => IsCanonical(f) && IsDecimal(f) && Value(f) == value
    case Version(text) => f == text && !IsCanonical(f)
  }

  // A reading has one spelling and a spelling one reading.
  lemma SpellingUnique(f: string, r: Reading, g: string, q: Reading)
    requires Spells(f, r) && Spells(g, q)
    ensures f == g <==> r == q
  {
    if r == q && r.Number? { CanonicalUnique(f, g); }
  }

  lemma {:induction false} ConcatLast(groups: seq<string>, c: char)
    requires groups != []
    ensures var n := |groups| - 1; Concat(groups[..n] + [groups[n] + [c]]) == Concat(groups) + [c]
  {
    var n := |groups| - 1;
    var more := groups[..n] + [groups[n] + [c]];
    assert more[..n] == groups[..n] && more[n] == groups[n] + [c];
    assert Concat(groups[..n]) + (groups[n] + [c]) == (Concat(groups[..n]) + groups[n]) + [c];
  }

  lemma {:induction false} ConcatDigits(body: string)
    requires forall i :: 0 <= i < |body| ==> IsDigit(body[i]) || IsSeparator(body[i])
    ensures var p := Split(body);
      Concat(p.groups) == Digits(body) && forall g <- p.groups :: AllDigits(g)
  {
    if body != [] {
      var front, c := body[..|body| - 1], body[|body| - 1];
      ConcatDigits(front);
      var q := Split(front);
      assert q.groups[|q.seps|] in q.groups;
      if IsSeparator(c) {
        assert (q.groups + [""])[..|q.groups|] == q.groups;
      } else {
        ConcatLast(q.groups, c);
      }
    }
  }

  lemma SignedInteger(neg: bool, d: string)
    requires AllDigits(d)
    ensures var v := (if neg then "-" else "") + d;
      IsDecimal(v) && Value(v) == Scaled(neg, NatValue(d), 0)
  {
    CutJoined(d, "");
    var v := (if neg then "-" else "") + d;
    assert Unsigned(v) == d && IsNegative(v) == neg;
    assert d + "" == d;
  }

  lemma {:induction false} SignedDecimal(neg: bool, a: string, b: string)
    requires AllDigits(a) && AllDigits(b)
    ensures var v := (if neg then "-" else "") + a + "." + b;
      IsDecimal(v) && Value(v) == Scaled(neg, NatValue(a + b), |b|)
  {
    CutJoined(a, b);
    var v := (if neg then "-" else "") + a + "." + b;
    assert Unsigned(v) == a + "." + b && IsNegative(v) == neg;
  }

  lemma {:induction false} SplitDigits(d: string)
    requires AllDigits(d)
    ensures Split(d) == Pieces([d], [])
  {
    if d != [] {
      SplitDigits(d[..|d| - 1]);
      assert d == d[..|d| - 1] + [d[|d| - 1]];
    }
  }

  lemma {:induction false} SplitPoint(a: string, b: string)
    requires AllDigits(a) && AllDigits(b)
    ensures Split(a + "." + b) == Pieces([a, b], ['.'])
  {
    var s := a + "." + b;
    if b == [] {
      assert s[..|s| - 1] == a;
      SplitDigits(a);
    } else {
      var front := b[..|b| - 1];
      SplitPoint(a, front);
      PointFront(a, front, b[|b| - 1]);
      assert b == front + [b[|b| - 1]];
    }
  }

  lemma PointFront(a: string, front: string, c: char)
    ensures var s := a + "." + (front + [c]); s[..|s| - 1] == a + "." + front && s[|s| - 1] == c
  {}

  lemma CanonicalReads(body: string, c: CutResult)
    requires c == CutPoint(body) && AllDigits(c.before) && AllDigits(c.after)
    ensures ReadsAsInteger(body) || ReadsAsDecimal(body)
  {
    CutShape(body);
    if c.found {
      SplitPoint(c.before, c.after);
      assert body == c.before + "." + c.after;
    } else {
      SplitDigits(c.before);
      assert body == c.before;
    }
  }

  // A canonical number has no separator other than one point, so it never is
  // a version literal.
  lemma VersionNeverCanonical(token: string)
    requires HasReading(token, Version(token))
    ensures !IsCanonical(token)
  {
    if IsCanonical(token) {
      CanonicalReads(Unsigned(token), CutPoint(Unsigned(token)));
    }
  }

  function IntegerText(token: string): string {
    CanonicalNumber(SignText(token) + Concat(Split(Unsigned(token)).groups))
  }

  function DecimalPointText(token: string): string {
    var groups := Split(Unsigned(token)).groups;
    var n := |groups|;
    CanonicalNumber(SignText(token) + Concat(groups[..n - 1]) + "." + groups[n - 1])
  }

  lemma IntegerSpelled(token: string)
    requires IsNumberToken(token)
    ensures Spells(IntegerText(token), IntegerReading(token))
  {
    var body := Unsigned(token);
    ConcatDigits(body);
    SignedInteger(IsNegative(token), Digits(body));
    CanonicalKeepsValue(SignText(token) + Digits(body));
  }

  lemma DecimalSpelled(token: string)
    requires IsNumberToken(token)
    ensures Spells(DecimalPointText(token), DecimalReading(token))
  {
    var body := Unsigned(token);
    var groups := Split(body).groups;
    var n := |groups|;
    ConcatDigits(body);
    var a, b := Concat(groups[..n - 1]), groups[n - 1];
    assert b in groups && a + b == Digits(body);
    AllDigitsPrefix(a, b);
    SignedDecimal(IsNegative(token), a, b);
    CanonicalKeepsValue(SignText(token) + a + "." + b);
  }

  lemma AllDigitsPrefix(a: string, b: string)
    requires AllDigits(a + b)
    ensures AllDigits(a)
  {
    forall i | 0 <= i < |a| ensures IsDigit(a[i]) { assert (a + b)[i] == a[i]; }
  }

  // A single group is spelled from the token itself.
  lemma SingleGroup(token: string)
    requires |Split(Unsigned(token)).groups| == 1
    ensures IntegerText(token) == CanonicalNumber(token)
  {
    var body := Unsigned(token);
    var p := Split(body);
    SplitRoundTrip(body);
    OneGroup(p.groups, p.seps);
    SignAndBody(token);
  }

  lemma {:induction false} OneGroup(groups: seq<string>, seps: seq<char>)
    requires |groups| == |seps| + 1 == 1
    ensures Concat(groups) == groups[0] == Join(groups, seps)
  {
    assert groups[..0] == [];
  }

  lemma SignAndBody(token: string)
    ensures SignText(token) + Unsigned(token) == token
  {}

  // numberForms, form by form.
  lemma FormsListed(token: string, f: string)
    ensures f in NumberForms(token) <==>
      || (ReadsAsInteger(Unsigned(token)) && f == IntegerText(token))
      || (ReadsAsDecimal(Unsigned(token)) && f == DecimalPointText(token))
      || (!ReadsAsInteger(Unsigned(token)) && !ReadsAsDecimal(Unsigned(token)) && f == token)
  {
    GroupsRead(Unsigned(token));
    if |Split(Unsigned(token)).groups| == 1 { SingleGroup(token); }
  }

  lemma GroupsRead(body: string)
    ensures var p := Split(body);
      var n := |p.groups|;
      && (ReadsAsInteger(body) <==> ThreeDigitGroups(p.groups[1..]))
      && (ReadsAsDecimal(body) <==> n > 1 && p.seps[n - 2] != ' ' && ThreeDigitGroups(p.groups[1..n - 1]))
  {
    var groups := Split(body).groups;
    GroupsAfterFirst(groups, |groups|);
    if |groups| > 1 { GroupsAfterFirst(groups, |groups| - 1); }
  }

  lemma GroupsAfterFirst(groups: seq<string>, n: nat)
    requires 1 <= n <= |groups|
    ensures ThreeDigitGroups(groups[1..n]) <==> forall k :: 1 <= k < n ==> |groups[k]| == 3
  {
    forall k | 1 <= k < n ensures groups[k] == groups[1..n][k - 1] {}
  }

  // numberForms lists exactly the spellings of the token's readings.
  lemma {:induction false} FormsAreSpellings(token: string, f: string)
    requires IsNumberToken(token)
    ensures f in NumberForms(token) <==> exists r :: HasReading(token, r) && Spells(f, r)
  {
    FormsListed(token, f);
    if f in NumberForms(token) {
      var r := FormSpells(token, f);
    }
    if r :| HasReading(token, r) && Spells(f, r) {
      SpellingIsForm(token, f, r);
    }
  }

  lemma {:induction false} FormSpells(token: string, f: string) returns (r: Reading)
    requires IsNumberToken(token) && f in NumberForms(token)
    ensures HasReading(token, r) && Spells(f, r)
  {
    FormsListed(token, f);
    if ReadsAsInteger(Unsigned(token)) && f == IntegerText(token) {
      r := IntegerReading(token);
      IntegerSpelled(token);
    } else if ReadsAsDecimal(Unsigned(token)) && f == DecimalPointText(token) {
      r := DecimalReading(token);
      DecimalSpelled(token);
    } else {
      r := Version(token);
      VersionNeverCanonical(token);
    }
  }

  lemma SpellingIsForm(token: string, f: string, r: Reading)
    requires IsNumberToken(token) && HasReading(token, r) && Spells(f, r)
    ensures f in NumberForms(token)
  {
    FormsListed(token, f);
    match r
    case Version(text) =>
    case Number(value) =>
      if ReadsAsInteger(Unsigned(token)) && r == IntegerReading(token) {
        IntegerSpelled(token);
        SpellingUnique(f, r, IntegerText(token), r);
      } else {
        DecimalSpelled(token);
        SpellingUnique(f, r, DecimalPointText(token), r);
      }
  }

  // Two tokens have a form in common exactly when they have a reading in common:
  // an equal signed value, or the identical version literal.
  lemma SharedFormIsSharedReading(t: string, u: string)
    requires IsNumberToken(t) && IsNumberToken(u)
    ensures Overlap(NumberForms, t, u) <==> ShareReading(t, u)
  {
    if Overlap(NumberForms, t, u) {
      var f :| f in NumberForms(t) && f in NumberForms(u);
      FormsAreSpellings(t, f);
      FormsAreSpellings(u, f);
      var r :| HasReading(t, r) && Spells(f, r);
      var q :| HasReading(u, q) && Spells(f, q);
      SpellingUnique(f, r, f, q);
    }
    if ShareReading(t, u) {
      var r :| HasReading(t, r) && HasReading(u, r);
      var f := ReadingHasForm(t, r);
      FormsAreSpellings(t, f);
      FormsAreSpellings(u, f);
    }
  }

  lemma ReadingHasForm(token: string, r: Reading) returns (f: string)
    requires IsNumberToken(token) && HasReading(token, r)
    ensures Spells(f, r)
  {
    IntegerSpelled(token);
    DecimalSpelled(token);
    if r.Version? {
      VersionNeverCanonical(token);
      f := token;
    } else if r == IntegerReading(token) {
      f := IntegerText(token);
    } else {
      f := DecimalPointText(token);
    }
  }

  // ---- factNumbersCovered on extracted tokens

  ghost predicate Covered(need: seq<string>, have: seq<string>) {
    forall t <- need :: exists u <- have :: ShareReading(t, u)
  }

  // The forms of the quoted tokens (the `have` map of factNumbersCovered).
  method FormsOf(forms: string -> seq<string>, quoted: seq<string>) returns (have: set<string>)
    ensures forall f :: f in have <==> exists u <- quoted :: f in forms(u)
  {
    have := {};
    for i := 0 to |quoted|
      invariant forall f :: f in have <==> exists k :: 0 <= k < i && f in forms(quoted[k])
    {
      have := have + (set f | f in forms(quoted[i]));
    }
  }

  // factNumbersCovered, after extraction, for any way of listing a token's forms.
  method FormsCovered(forms: string -> seq<string>, need: seq<string>, quoted: seq<string>) returns (covered: bool)
    ensures covered <==> forall t <- need :: exists u <- quoted :: Overlap(forms, t, u)
  {
    if |need| == 0 {
      return true;
    }
    var have := FormsOf(forms, quoted);
    for i := 0 to |need|
      invariant forall k :: 0 <= k < i ==> exists u <- quoted :: Overlap(forms, need[k], u)
    {
      var tokenForms := forms(need[i]);
      var found := false;
      for k := 0 to |tokenForms|
        invariant !found && forall m :: 0 <= m < k ==> tokenForms[m] !in have
      {
        if tokenForms[k] in have {
          found := true;
          break;
        }
      }
      if !found {
        assert need[i] in need;
        return false;
      }
    }
    return true;
  }

  // Coverage holds exactly when every needed token has a quoted token that may
  // denote the same number, or is the same version literal.
  method NumbersCovered(need: seq<string>, quoted: seq<string>) returns (covered: bool)
    requires forall t <- need :: IsNumberToken(t)
    requires forall t <- quoted :: IsNumberToken(t)
    ensures covered <==> Covered(need, quoted)
  {
    covered := FormsCovered(NumberForms, need, quoted);
    forall t, u | t in need && u in quoted ensures Overlap(NumberForms, t, u) <==> ShareReading(t, u) {
      SharedFormIsSharedReading(t, u);
    }
  }
}
