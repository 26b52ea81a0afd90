/** UTF-8 as sections 3 and 4 of RFC 3629 define it, and cutting it at a byte
    limit (text/token.go:34-38, webtext/truncate.go:5-17). */
module Utf8 {

  type Bytes = seq<bv8>

  // utf8.RuneStart, and the mask test of webtext.Truncate.
  predicate RuneStart(b: bv8) { b & 0xC0 != 0x80 }

  predicate Tail(b: bv8) { 0x80 <= b <= 0xBF }

  lemma {:induction false} StartOrTail(b: bv8)
    ensures RuneStart(b) <==> !Tail(b)
  {}

  // ---- Well-formedness, by the grammar of section 4

  predicate OneByte(s: Bytes) { |s| >= 1 && s[0] <= 0x7F }

  predicate TwoBytes(s: Bytes) { |s| >= 2 && 0xC2 <= s[0] <= 0xDF && Tail(s[1]) }

  predicate ThreeBytes(s: Bytes) {
    && |s| >= 3 && Tail(s[1]) && Tail(s[2])
    && (|| (s[0] == 0xE0 && 0xA0 <= s[1])
        || 0xE1 <= s[0] <= 0xEC
        || (s[0] == 0xED && s[1] <= 0x9F)
        || 0xEE <= s[0] <= 0xEF)
  }

  predicate FourBytes(s: Bytes) {
    && |s| >= 4 && Tail(s[1]) && Tail(s[2]) && Tail(s[3])
    && (|| (s[0] == 0xF0 && 0x90 <= s[1])
        || 0xF1 <= s[0] <= 0xF3
        || (s[0] == 0xF4 && s[1] <= 0x8F))
  }

  // The length of the character s starts with, or 0 if it starts with none.
  function CharLen(s: Bytes): nat {
    if OneByte(s) then 1 else if TwoBytes(s) then 2 else if ThreeBytes(s) then 3 else if FourBytes(s) then 4 else 0
  }

  predicate Valid(s: Bytes) { s == [] || (CharLen(s) > 0 && Valid(Rest(s))) }

  function Rest(s: Bytes): Bytes
    requires CharLen(s) > 0
    ensures |Rest(s)| < |s|
  {
    s[CharLen(s)..]
  }

  // A character starts with a rune start and goes on with tails.
  lemma {:induction false} CharShape(s: Bytes)
    requires CharLen(s) > 0
    ensures CharLen(s) <= |s| && CharLen(s) <= 4 && RuneStart(s[0])
    ensures forall k :: 1 <= k < CharLen(s) ==> !RuneStart(s[k])
  {
    StartOrTail(s[0]);
    forall k | 1 <= k < CharLen(s) ensures !RuneStart(s[k]) {
      assert k == 1 || k == 2 || k == 3;
      StartOrTail(s[k]);
    }
  }

  // A prefix starts with the same character if it holds all of it, else with none.
  lemma {:induction false} CharOfPrefix(s: Bytes, i: nat)
    requires CharLen(s) > 0 && i <= |s|
    ensures CharLen(s[..i]) == if i < CharLen(s) then 0 else CharLen(s)
  {
    var p := s[..i];
    assert forall k :: 0 <= k < i ==> p[k] == s[k];
  }

  lemma RestOfPrefix(s: Bytes, n: nat, i: nat)
    requires n <= i < |s|
    ensures s[n..][..i - n] == s[..i][n..] && s[n..][i - n] == s[i]
  {
    var a, b := s[n..][..i - n], s[..i][n..];
    assert |a| == |b| && forall k :: 0 <= k < |a| ==> a[k] == b[k];
  }

  // A prefix of valid UTF-8 is valid exactly when it ends at the end or before a
  // rune start.
  lemma {:induction false} ValidPrefix(s: Bytes, i: nat)
    requires Valid(s) && i <= |s|
    ensures Valid(s[..i]) <==> i == |s| || RuneStart(s[i])
  {
    if i == |s| {
      assert s[..i] == s;
    } else {
      var n := CharLen(s);
      CharShape(s);
      if i > 0 {
        CharOfPrefix(s, i);
        if i >= n {
          ValidPrefix(Rest(s), i - n);
          RestOfPrefix(s, n, i);
        }
      }
    }
  }

  // Among any byte of valid UTF-8 and the three before it is a rune start.
  lemma {:induction false} StartWithinThree(s: Bytes, m: nat) returns (r: nat)
    requires Valid(s) && m < |s|
    ensures r <= m <= r + 3 && RuneStart(s[r])
  {
    var n := CharLen(s);
    CharShape(s);
    if m < n {
      r := 0;
    } else {
      var inner := StartWithinThree(Rest(s), m - n);
      r := inner + n;
      assert Rest(s)[inner] == s[r];
    }
  }

  // ---- Cutting

  // Backing up from m to a rune start, or to 0.
  function CutAt(s: Bytes, m: nat): (r: nat)
    requires m < |s|
    ensures r <= m && (r == 0 || RuneStart(s[r]))
    ensures forall i :: r < i <= m ==> !RuneStart(s[i])
  {
    if m > 0 && !RuneStart(s[m]) then CutAt(s, m - 1) else m
  }

  // s cut to at most m bytes.
  function Cut(s: Bytes, m: nat): Bytes { if |s| <= m then s else s[..CutAt(s, m)] }

  // The cut of valid UTF-8 is the longest valid prefix of at most m bytes, and
  // no more than three bytes shorter than m allows.
  lemma CutIsLongest(s: Bytes, m: nat)
    requires Valid(s)
    ensures var out := Cut(s, m);
      && out <= s && |out| <= m && Valid(out)
      && (forall i :: 0 <= i <= m && i <= |s| && Valid(s[..i]) ==> i <= |out|)
      && (|s| > m ==> |out| >= m - 3)
  {
    if |s| <= m {
      assert s[..|s|] == s;
    } else {
      var r := CutAt(s, m);
      ValidPrefix(s, r);
      ValidPrefix(s, 0);
      forall i | 0 <= i <= m && Valid(s[..i]) ensures i <= r { ValidPrefix(s, i); }
      var near := StartWithinThree(s, m);
    }
  }

  // webtext.Truncate.
  method Truncate(s: Bytes, n: int) returns (out: Bytes)
    ensures out == TruncatedTo(s, n)
  {
    if n <= 0 || |s| <= n {
      return s;
    }
    var m := n;
    while m > 0 && m < |s|
      invariant 0 <= m < |s| && CutAt(s, m) == CutAt(s, n)
      decreases m
    {
      if s[m] & 0xC0 != 0x80 {
        break;
      }
      m := m - 1;
    }
    return s[..m];
  }

  // What Truncate promises: the cut at a positive limit, all of s otherwise.
  function TruncatedTo(s: Bytes, n: int): Bytes { if n <= 0 then s else Cut(s, n) }

  lemma TruncateKeepsUtf8(s: Bytes, n: int)
    requires Valid(s)
    ensures Valid(TruncatedTo(s, n)) && (n > 0 ==> |TruncatedTo(s, n)| <= n)
  {
    if n > 0 { CutIsLongest(s, n); }
  }
}
