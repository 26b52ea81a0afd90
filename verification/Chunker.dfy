/** Chunking of text at word boundaries (text/chunker.go). A string is its
    sequence of runes. */
module Chunker {
  import opened Texts

  // ---- White space

  // unicode.IsSpace.
  predicate IsSpace(c: char) {
    || '\t' <= c <= '\r' || c == ' ' || c == '\U{85}' || c == '\U{A0}' || c == '\U{1680}'
    || '\U{2000}' <= c <= '\U{200A}' || c == '\U{2028}' || c == '\U{2029}' || c == '\U{202F}'
    || c == '\U{205F}' || c == '\U{3000}'
  }

  // The code points of the Unicode property White_Space.
  lemma {:induction false} SpacesListed(c: char)
    ensures IsSpace(c) <==> c as int in {
      9, 10, 11, 12, 13, 32, 133, 160, 5760, 8192, 8193, 8194, 8195, 8196, 8197, 8198, 8199, 8200, 8201, 8202,
      8232, 8233, 8239, 8287, 12288}
  {}

  function TrimLeft(s: string): (t: string)
    ensures |t| <= |s|
  {
    if s != [] && IsSpace(s[0]) then TrimLeft(s[1..]) else s
  }

  // How many spaces lead s.
  function Lead(s: string): nat { |s| - |TrimLeft(s)| }

  function TrimRight(s: string): string {
    if s != [] && IsSpace(s[|s| - 1]) then TrimRight(s[..|s| - 1]) else s
  }

  function TrimSpace(s: string): string { TrimRight(TrimLeft(s)) }

  // The runes of s that are not white space, in order.
  function Visible(s: string): string {
    if s == [] then [] else (if IsSpace(s[0]) then [] else [s[0]]) + Visible(s[1..])
  }

  lemma {:induction false} VisibleAppend(s: string, t: string)
    ensures Visible(s + t) == Visible(s) + Visible(t)
  {
    if s == [] {
      assert s + t == t;
    } else {
      assert (s + t)[1..] == s[1..] + t;
      VisibleAppend(s[1..], t);
    }
  }

  // Trimming cuts a slice out of s that holds everything visible in s.
  ghost predicate Slice(s: string, t: string, at: nat) {
    && at + |t| <= |s| && t == s[at..at + |t|]
    && forall i :: 0 <= i < |s| && !IsSpace(s[i]) ==> at <= i < at + |t|
  }

  lemma SliceShift(s: string, t: string, at: nat)
    requires s != [] && IsSpace(s[0]) && Slice(s[1..], t, at)
    ensures Slice(s, t, at + 1)
  {
    assert s[1..][at..at + |t|] == s[at + 1..at + 1 + |t|];
    assert forall i :: 1 <= i < |s| ==> s[1..][i - 1] == s[i];
  }

  lemma {:induction false} TrimLeftSlice(s: string) returns (at: nat)
    ensures at == Lead(s) && Slice(s, TrimLeft(s), at) && Visible(TrimLeft(s)) == Visible(s)
  {
    if s != [] && IsSpace(s[0]) {
      var rest := TrimLeftSlice(s[1..]);
      at := rest + 1;
      SliceShift(s, TrimLeft(s), rest);
    } else {
      at := 0;
    }
  }

  lemma {:induction false} TrimRightSlice(s: string)
    ensures Slice(s, TrimRight(s), 0) && Visible(TrimRight(s)) == Visible(s)
  {
    if s != [] && IsSpace(s[|s| - 1]) {
      var front, last := s[..|s| - 1], s[|s| - 1];
      TrimRightSlice(front);
      assert s == front + [last];
      VisibleAppend(front, [last]);
      assert Visible([last]) == [];
      assert forall i :: 0 <= i < |front| ==> front[i] == s[i];
    }
  }

  // strings.TrimSpace returns a slice and loses nothing visible.
  lemma TrimSlice(s: string) returns (at: nat)
    ensures at == Lead(s) && Slice(s, TrimSpace(s), at) && Visible(TrimSpace(s)) == Visible(s)
  {
    at := TrimLeftSlice(s);
    var t := TrimLeft(s);
    TrimRightSlice(t);
    SliceOfSlice(s, t, TrimSpace(s), at);
  }

  lemma SliceOfSlice(s: string, t: string, u: string, at: nat)
    requires Slice(s, t, at) && Slice(t, u, 0)
    ensures Slice(s, u, at)
  {
    assert forall i :: 0 <= i < |t| ==> t[i] == s[at + i];
    forall i | 0 <= i < |s| && !IsSpace(s[i]) ensures at <= i < at + |u| { assert t[i - at] == s[i]; }
    assert u == s[at..at + |u|];
  }

  lemma {:induction false} TrimRightEnds(s: string)
    ensures var t := TrimRight(s); t != [] ==> !IsSpace(t[|t| - 1]) && t[0] == s[0]
  {
    if s != [] && IsSpace(s[|s| - 1]) { TrimRightEnds(s[..|s| - 1]); }
  }

  lemma {:induction false} TrimLeftEnds(s: string)
    ensures var t := TrimLeft(s); t != [] ==> !IsSpace(t[0])
  {
    if s != [] && IsSpace(s[0]) { TrimLeftEnds(s[1..]); }
  }

  // A trimmed text starts and ends with a visible rune.
  lemma TrimEnds(s: string)
    ensures var t := TrimSpace(s); t != [] ==> !IsSpace(t[0]) && !IsSpace(t[|t| - 1])
  {
    TrimLeftEnds(s);
    TrimRightEnds(TrimLeft(s));
  }

  // ---- The windows of a text

  // The last space in [lo, hi), or -1.
  function LastSpace(runes: string, lo: nat, hi: nat): (r: int)
    requires hi <= |runes|
    ensures -1 <= r < hi && (r >= 0 ==> lo <= r && runes[r] == ' ')
    ensures forall i :: lo <= i < hi && r < i ==> runes[i] != ' '
    decreases hi
  {
    if hi <= lo then -1 else if runes[hi - 1] == ' ' then hi - 1 else LastSpace(runes, lo, hi - 1)
  }

  // The cut chosen for the window that starts at pos and does not reach the end.
  function Boundary(runes: string, pos: nat, size: nat): int
    requires pos + size < |runes|
  {
    LastSpace(runes, pos + size / 2, pos + size)
  }

  function WindowEnd(runes: string, pos: nat, size: nat): nat
    requires pos < |runes|
  {
    if pos + size >= |runes| then |runes|
    else if Boundary(runes, pos, size) >= 0 then Boundary(runes, pos, size)
    else pos + size
  }

  function NextPos(runes: string, pos: nat, size: nat, overlap: int): nat
    requires pos < |runes|
  {
    if pos + size >= |runes| then |runes|
    else
      var split := Boundary(runes, pos, size);
      var next := if split >= 0 then split + 1 - overlap else pos + size - overlap;
      if next <= pos then pos + 1 else next
  }

  datatype Window = Window(from: nat, to: nat)

  function Windows(runes: string, pos: nat, size: nat, overlap: int): seq<Window>
    decreases if pos < |runes| then |runes| - pos else 0
  {
    if pos >= |runes| then []
    else [Window(pos, WindowEnd(runes, pos, size))] + Windows(runes, NextPos(runes, pos, size, overlap), size, overlap)
  }

  predicate WindowOf(runes: string, w: Window, size: nat) {
    w.from <= w.to <= |runes| && w.to - w.from <= size
  }

  // The trimmed windows, without the blank ones.
  function Pieces(runes: string, windows: seq<Window>): seq<string>
    requires forall w <- windows :: w.from <= w.to <= |runes|
  {
    if windows == [] then []
    else
      var piece, rest := TrimSpace(runes[windows[0].from..windows[0].to]), Pieces(runes, windows[1..]);
      if piece == "" then rest else [piece] + rest
  }

  lemma SubSlice(runes: string, from: nat, to: nat, at: nat, n: nat)
    requires from <= to <= |runes| && at + n <= to - from
    ensures runes[from..to][at..at + n] == runes[from + at..from + at + n]
  {
    var s, t := runes[from..to][at..at + n], runes[from + at..from + at + n];
    assert |s| == |t| == n;
    assert forall i :: 0 <= i < n ==> s[i] == t[i];
  }

  function PieceOf(runes: string, w: Window): string
    requires w.from <= w.to <= |runes|
  {
    TrimSpace(runes[w.from..w.to])
  }

  // Where the piece of window w stands: behind the spaces that lead the window.
  function PlaceOf(runes: string, w: Window): nat
    requires w.from <= w.to <= |runes|
  {
    w.from + Lead(runes[w.from..w.to])
  }

  // The piece of window w and the slice of the text it is.
  lemma PieceAt(runes: string, w: Window) returns (at: nat)
    requires w.from <= w.to <= |runes|
    ensures var piece := PieceOf(runes, w);
      && at == PlaceOf(runes, w) && w.from <= at && at + |piece| <= w.to && piece == runes[at..at + |piece|]
      && (forall i :: w.from <= i < w.to && !IsSpace(runes[i]) ==> at <= i < at + |piece|)
  {
    var s := runes[w.from..w.to];
    var inner := TrimSlice(s);
    at := w.from + inner;
    SubSlice(runes, w.from, w.to, inner, |TrimSpace(s)|);
    SliceWithin(runes, w.from, w.to, TrimSpace(s), inner);
  }

  lemma SliceWithin(runes: string, from: nat, to: nat, t: string, at: nat)
    requires from <= to <= |runes| && Slice(runes[from..to], t, at)
    ensures forall i :: from <= i < to && !IsSpace(runes[i]) ==> from + at <= i < from + at + |t|
  {
    forall i | from <= i < to && !IsSpace(runes[i]) ensures from + at <= i < from + at + |t| {
      assert runes[from..to][i - from] == runes[i];
    }
  }

  // Every window holds at most `size` runes.
  lemma {:induction false} WindowsFit(runes: string, pos: nat, size: nat, overlap: int)
    ensures forall w <- Windows(runes, pos, size, overlap) :: WindowOf(runes, w, size) && pos <= w.from
    decreases if pos < |runes| then |runes| - pos else 0
  {
    if pos < |runes| { WindowsFit(runes, NextPos(runes, pos, size, overlap), size, overlap); }
  }

  // The windows start at strictly increasing positions, the first at pos.
  lemma {:induction false} WindowsAdvance(runes: string, pos: nat, size: nat, overlap: int)
    ensures var ws := Windows(runes, pos, size, overlap);
      && (pos < |runes| ==> ws != [] && ws[0].from == pos)
      && (forall k, l :: 0 <= k < l < |ws| ==> ws[k].from < ws[l].from)
    decreases if pos < |runes| then |runes| - pos else 0
  {
    if pos < |runes| {
      var next := NextPos(runes, pos, size, overlap);
      WindowsAdvance(runes, next, size, overlap);
      WindowsFit(runes, next, size, overlap);
      var ws, rest := Windows(runes, pos, size, overlap), Windows(runes, next, size, overlap);
      FirstBefore(ws[0], rest, next);
      assert ws == [ws[0]] + rest;
    }
  }

  lemma FirstBefore(w: Window, rest: seq<Window>, next: nat)
    requires w.from < next && forall v <- rest :: next <= v.from
    requires forall k, l :: 0 <= k < l < |rest| ==> rest[k].from < rest[l].from
    ensures forall k, l :: 0 <= k < l <= |rest| ==> ([w] + rest)[k].from < ([w] + rest)[l].from
  {}

  // Every window but the last stops short of the end, and the next one starts
  // where NextPos says.
  lemma {:induction false} WindowStep(runes: string, pos: nat, size: nat, overlap: int, k: nat)
    requires k + 1 < |Windows(runes, pos, size, overlap)|
    ensures var ws := Windows(runes, pos, size, overlap);
      && ws[k].from + size < |runes|
      && ws[k].to == WindowEnd(runes, ws[k].from, size)
      && ws[k + 1].from == NextPos(runes, ws[k].from, size, overlap)
    decreases if pos < |runes| then |runes| - pos else 0
  {
    if k > 0 { WindowStep(runes, NextPos(runes, pos, size, overlap), size, overlap, k - 1); }
  }

  // Neighbouring windows never share more than `overlap` runes.
  lemma SharedAtMost(runes: string, pos: nat, size: nat, overlap: nat, k: nat)
    requires k + 1 < |Windows(runes, pos, size, overlap)|
    ensures var ws := Windows(runes, pos, size, overlap); ws[k].to - ws[k + 1].from <= overlap
  {
    WindowStep(runes, pos, size, overlap, k);
  }

  // What neighbouring windows share: `overlap` runes after a forced cut; one
  // less after a cut at a space, because the space is skipped; and where that
  // would not move on, all but the first rune of the window.
  function Shared(split: int, pos: nat, overlap: nat): int {
    if split < 0 then overlap else if split + 1 - overlap > pos then overlap - 1 else split - pos - 1
  }

  // Neighbouring windows share the promised `overlap` runes exactly when there
  // was no space to cut at.
  lemma NeighboursShare(runes: string, pos: nat, size: nat, overlap: nat, k: nat)
    requires overlap < size && k + 1 < |Windows(runes, pos, size, overlap)|
    ensures var ws := Windows(runes, pos, size, overlap);
      && ws[k].from + size < |runes|
      && var split := Boundary(runes, ws[k].from, size);
      && ws[k].to - ws[k + 1].from == Shared(split, ws[k].from, overlap)
      && (ws[k].to - ws[k + 1].from == overlap <==> split < 0)
  {
    WindowStep(runes, pos, size, overlap, k);
  }

  // Cut at its space, "ab cd" gives two windows that share nothing at an
  // overlap of one.
  lemma SpaceEatsOverlap()
    ensures Windows("ab cd", 0, 4, 1) == [Window(0, 2), Window(2, 5)]
  {
    var t := "ab cd";
    assert Boundary(t, 0, 4) == 2;
    assert WindowEnd(t, 0, 4) == 2 && NextPos(t, 0, 4, 1) == 2;
    assert WindowEnd(t, 2, 4) == 5 && NextPos(t, 2, 4, 1) == 5;
    assert Windows(t, 5, 4, 1) == [];
    assert Windows(t, 2, 4, 1) == [Window(2, 5)];
  }

  ghost predicate InWindow(ws: seq<Window>, i: nat) {
    exists k :: 0 <= k < |ws| && ws[k].from <= i < ws[k].to
  }

  // Every visible rune lies in a window.
  lemma {:induction false} WindowsCover(runes: string, pos: nat, size: nat, overlap: int, i: nat)
    requires size >= 1 && overlap >= 0
    requires pos <= i < |runes| && !IsSpace(runes[i])
    ensures InWindow(Windows(runes, pos, size, overlap), i)
    decreases if pos < |runes| then |runes| - pos else 0
  {
    var ws := Windows(runes, pos, size, overlap);
    var next := NextPos(runes, pos, size, overlap);
    if i < ws[0].to {
      assert ws[0].from <= i < ws[0].to;
    } else {
      WindowsCover(runes, next, size, overlap, i);
      var rest := Windows(runes, next, size, overlap);
      var k :| 0 <= k < |rest| && rest[k].from <= i < rest[k].to;
      assert ws[k + 1] == rest[k];
    }
  }

  // ---- The chunks of a text

  function TextWindows(text: string, size: nat, overlap: int): seq<Window> {
    Windows(TrimSpace(text), 0, size, overlap)
  }

  // The windows of a text lie inside it.
  predicate TextFits(text: string, size: nat, overlap: int) {
    forall w <- TextWindows(text, size, overlap) :: w.from <= w.to <= |TrimSpace(text)|
  }

  function PiecesFrom(runes: string, pos: nat, size: nat, overlap: int): seq<string> {
    WindowsFit(runes, pos, size, overlap);
    Pieces(runes, Windows(runes, pos, size, overlap))
  }

  // The chunks of a text: its trimmed windows.
  function ChunksOf(text: string, size: nat, overlap: int): seq<string> {
    PiecesFrom(TrimSpace(text), 0, size, overlap)
  }

  function AddPiece(piece: string, rest: seq<string>): seq<string> { if piece == "" then rest else [piece] + rest }

  lemma AddPieceAppend(chunks: seq<string>, piece: string, rest: seq<string>)
    ensures chunks + AddPiece(piece, rest) == (if piece == "" then chunks else chunks + [piece]) + rest
  {}

  lemma {:induction false} PiecesFromStep(runes: string, pos: nat, size: nat, overlap: int)
    requires pos < |runes|
    ensures WindowOf(runes, Window(pos, WindowEnd(runes, pos, size)), size)
    ensures PiecesFrom(runes, pos, size, overlap)
         == AddPiece(TrimSpace(runes[pos..WindowEnd(runes, pos, size)]),
                     PiecesFrom(runes, NextPos(runes, pos, size, overlap), size, overlap))
  {
    var ws := Windows(runes, pos, size, overlap);
    assert ws[1..] == Windows(runes, NextPos(runes, pos, size, overlap), size, overlap);
  }

  lemma {:induction false} PiecesFit(runes: string, ws: seq<Window>, size: nat)
    requires forall w <- ws :: w.from <= w.to <= |runes| && w.to - w.from <= size
    ensures forall c <- Pieces(runes, ws) :: 1 <= |c| <= size && Slices(runes, c)
  {
    if ws != [] {
      var at := PieceAt(runes, ws[0]);
      assert ReadsAt(runes, TrimSpace(runes[ws[0].from..ws[0].to]), at);
      PiecesFit(runes, ws[1..], size);
    }
  }

  // The text reads c from `at` on.
  predicate ReadsAt(runes: string, c: string, at: nat) { at + |c| <= |runes| && c == runes[at..at + |c|] }

  // c is a contiguous part of the text.
  ghost predicate Slices(runes: string, c: string) { exists at: nat :: ReadsAt(runes, c, at) }

  // Every chunk is a non-empty contiguous part of the text of at most `size` runes.
  lemma ChunksFit(text: string, size: nat, overlap: int)
    ensures forall c <- ChunksOf(text, size, overlap) :: 1 <= |c| <= size && Slices(TrimSpace(text), c)
  {
    WindowsFit(TrimSpace(text), 0, size, overlap);
    PiecesFit(TrimSpace(text), TextWindows(text, size, overlap), size);
  }

  // The chunks stand in the text at the given places, one place a chunk, none
  // before the one of the chunk before.
  predicate Placed(runes: string, chunks: seq<string>, ats: seq<nat>) {
    && |ats| == |chunks|
    && (forall k :: 0 <= k < |chunks| ==> ReadsAt(runes, chunks[k], ats[k]))
    && (forall k, l :: 0 <= k < l < |ats| ==> ats[k] <= ats[l])
  }

  // Rune i lies in one of the chunks so placed.
  ghost predicate InChunk(chunks: seq<string>, ats: seq<nat>, i: nat)
    requires |ats| == |chunks|
  {
    exists k :: 0 <= k < |chunks| && ats[k] <= i < ats[k] + |chunks[k]|
  }

  // The chunks can be placed so that every visible rune lies in one of them.
  ghost predicate Covers(runes: string, chunks: seq<string>, ats: seq<nat>) {
    Placed(runes, chunks, ats) && forall i :: 0 <= i < |runes| && !IsSpace(runes[i]) ==> InChunk(chunks, ats, i)
  }

  // Windows inside the text, starting one after the other.
  predicate Ascending(runes: string, ws: seq<Window>) {
    && (forall w <- ws :: w.from <= w.to <= |runes|)
    && (forall k, l :: 0 <= k < l < |ws| ==> ws[k].from < ws[l].from)
  }

  lemma PlacedFirst(runes: string, piece: string, at: nat, tail: seq<string>, rest: seq<nat>)
    requires ReadsAt(runes, piece, at) && Placed(runes, tail, rest)
    requires forall l :: 0 <= l < |rest| ==> at <= rest[l]
    ensures Placed(runes, [piece] + tail, [at] + rest)
    ensures forall i: nat :: at <= i < at + |piece| ==> InChunk([piece] + tail, [at] + rest, i)
    ensures forall i: nat :: InChunk(tail, rest, i) ==> InChunk([piece] + tail, [at] + rest, i)
  {
    var chunks, ats := [piece] + tail, [at] + rest;
    assert chunks[0] == piece && ats[0] == at;
    forall i: nat | InChunk(tail, rest, i) ensures InChunk(chunks, ats, i) {
      var k :| 0 <= k < |tail| && rest[k] <= i < rest[k] + |tail[k]|;
      assert chunks[k + 1] == tail[k] && ats[k + 1] == rest[k];
    }
  }

  // Where a chunk may stand: on a visible rune, not before `from`.
  predicate Visibly(runes: string, ats: seq<nat>, from: nat) {
    forall k :: 0 <= k < |ats| ==> from <= ats[k] < |runes| && !IsSpace(runes[ats[k]])
  }

  // The places of the trimmed windows, without the blank ones.
  function Places(runes: string, windows: seq<Window>): seq<nat>
    requires forall w <- windows :: w.from <= w.to <= |runes|
  {
    if windows == [] then []
    else
      var rest := Places(runes, windows[1..]);
      if PieceOf(runes, windows[0]) == "" then rest else [PlaceOf(runes, windows[0])] + rest
  }

  // The windows' pieces, so placed, hold every visible rune of the windows.
  ghost predicate HoldAll(runes: string, ws: seq<Window>, chunks: seq<string>, ats: seq<nat>) {
    && Placed(runes, chunks, ats)
    && Visibly(runes, ats, if ws == [] then 0 else ws[0].from)
    && forall i: nat :: i < |runes| && !IsSpace(runes[i]) && InWindow(ws, i) ==> InChunk(chunks, ats, i)
  }

  lemma BlankWindow(runes: string, ws: seq<Window>, tail: seq<string>, rest: seq<nat>)
    requires Ascending(runes, ws) && ws != [] && PieceOf(runes, ws[0]) == ""
    requires HoldAll(runes, ws[1..], tail, rest) && (ws[1..] == [] ==> rest == [])
    ensures HoldAll(runes, ws, tail, rest)
  {
    var at := PieceAt(runes, ws[0]);
    forall i: nat | i < |runes| && !IsSpace(runes[i]) && InWindow(ws, i) ensures InWindow(ws[1..], i) {
      InFirstOrRest(runes, ws, i);
    }
  }

  lemma SolidWindow(runes: string, ws: seq<Window>, tail: seq<string>, rest: seq<nat>)
    requires Ascending(runes, ws) && ws != [] && PieceOf(runes, ws[0]) != ""
    requires HoldAll(runes, ws[1..], tail, rest) && (ws[1..] == [] ==> rest == [])
    ensures HoldAll(runes, ws, [PieceOf(runes, ws[0])] + tail, [PlaceOf(runes, ws[0])] + rest)
  {
    var piece := PieceOf(runes, ws[0]);
    var at := PieceAt(runes, ws[0]);
    TrimEnds(runes[ws[0].from..ws[0].to]);
    assert piece[0] == runes[at];
    PlacedFirst(runes, piece, at, tail, rest);
    forall i: nat | i < |runes| && !IsSpace(runes[i]) && InWindow(ws, i)
      ensures InChunk([piece] + tail, [at] + rest, i)
    {
      InFirstOrRest(runes, ws, i);
    }
  }

  // The trimmed windows are placed at their first visible runes, where they hold
  // everything visible in their windows.
  lemma {:induction false} PiecesPlaced(runes: string, ws: seq<Window>)
    requires Ascending(runes, ws)
    ensures HoldAll(runes, ws, Pieces(runes, ws), Places(runes, ws))
  {
    if ws != [] {
      var tail, rest := Pieces(runes, ws[1..]), Places(runes, ws[1..]);
      PiecesPlaced(runes, ws[1..]);
      if PieceOf(runes, ws[0]) == "" {
        BlankWindow(runes, ws, tail, rest);
      } else {
        SolidWindow(runes, ws, tail, rest);
      }
    }
  }

  lemma InFirstOrRest(runes: string, ws: seq<Window>, i: nat)
    requires ws != [] && InWindow(ws, i)
    ensures ws[0].from <= i < ws[0].to || InWindow(ws[1..], i)
  {
    var k :| 0 <= k < |ws| && ws[k].from <= i < ws[k].to;
    if k > 0 { assert ws[1..][k - 1] == ws[k]; }
  }

  // The chunks of a text cover it: one place per chunk, in order, and every
  // visible rune in one of them.
  lemma ChunksCover(text: string, size: nat, overlap: int) returns (ats: seq<nat>)
    requires size >= 1 && overlap >= 0
    ensures TextFits(text, size, overlap) && ats == Places(TrimSpace(text), TextWindows(text, size, overlap))
    ensures Covers(TrimSpace(text), ChunksOf(text, size, overlap), ats)
  {
    var runes := TrimSpace(text);
    var ws := TextWindows(text, size, overlap);
    WindowsFit(runes, 0, size, overlap);
    WindowsAdvance(runes, 0, size, overlap);
    ats := Places(runes, ws);
    PiecesPlaced(runes, ws);
    forall i | 0 <= i < |runes| && !IsSpace(runes[i]) ensures InChunk(ChunksOf(text, size, overlap), ats, i) {
      WindowsCover(runes, 0, size, overlap, i);
    }
  }

  lemma SameStartWindows()
    ensures Windows("x  bcd", 0, 4, 3) == [Window(0, 2), Window(1, 5), Window(2, 6)]
  {
    var t := "x  bcd";
    assert WindowEnd(t, 0, 4) == 2 && NextPos(t, 0, 4, 3) == 1;
    assert WindowEnd(t, 1, 4) == 5 && NextPos(t, 1, 4, 3) == 2;
    assert WindowEnd(t, 2, 4) == 6 && NextPos(t, 2, 4, 3) == 6;
    assert Windows(t, 6, 4, 3) == [];
    assert Windows(t, 2, 4, 3) == [Window(2, 6)];
    assert Windows(t, 1, 4, 3) == [Window(1, 5), Window(2, 6)];
  }

  lemma SameStartTrims()
    ensures TrimSpace("x  bcd") == "x  bcd" && TrimSpace("x ") == "x"
    ensures TrimSpace("  bc") == "bc" && TrimSpace(" bcd") == "bcd"
  {
    assert "x "[..1] == "x" && TrimLeft("x ") == "x ";
    assert "  bc"[1..] == " bc" && " bc"[1..] == "bc" && TrimLeft(" bc") == "bc" && TrimLeft("  bc") == "bc";
    assert " bcd"[1..] == "bcd" && TrimLeft(" bcd") == "bcd";
  }

  // Two chunks may start at the same rune, behind the spaces that lead their
  // windows, so the places need not strictly increase.
  lemma SameStart()
    ensures ChunksOf("x  bcd", 4, 3) == ["x", "bc", "bcd"]
    ensures forall ats :: Placed("x  bcd", ["x", "bc", "bcd"], ats) ==> ats[1] == ats[2] == 3
  {
    var t := "x  bcd";
    SameStartWindows();
    SameStartTrims();
    var ws := [Window(0, 2), Window(1, 5), Window(2, 6)];
    assert ws[1..] == [Window(1, 5), Window(2, 6)] && ws[1..][1..] == [Window(2, 6)] && ws[1..][1..][1..] == [];
    assert t[0..2] == "x " && t[1..5] == "  bc" && t[2..6] == " bcd";
    forall ats | Placed(t, ["x", "bc", "bcd"], ats) ensures ats[1] == ats[2] == 3 {
      OnlyAtThree("bc", ats[1]);
      OnlyAtThree("bcd", ats[2]);
    }
  }

  lemma OnlyAtThree(c: string, at: nat)
    requires c != "" && c[0] == 'b' && ReadsAt("x  bcd", c, at)
    ensures at == 3
  {
    assert "x  bcd"[at..at + |c|][0] == "x  bcd"[at];
  }

  // The chunks of a text can be placed so that they cover it.
  ghost predicate Coverable(text: string, size: nat, overlap: int) {
    exists ats :: Covers(TrimSpace(text), ChunksOf(text, size, overlap), ats)
  }

  ghost predicate NeverLoses(size: nat, overlap: int) { forall text: string :: Coverable(text, size, overlap) }

  lemma {:induction false} SolidText(n: nat, text: string)
    requires text == seq(n, _ => 'a')
    ensures TrimSpace(text) == text
  {}

  // A size of zero, or a negative overlap, loses the last rune of this text,
  // wherever its chunks are placed.
  lemma LosingText(size: nat, overlap: int, ats: seq<nat>)
    requires size == 0 || overlap < 0
    ensures var text: string := seq(size + 1, _ => 'a');
      !Covers(TrimSpace(text), ChunksOf(text, size, overlap), ats)
  {
    var text: string := seq(size + 1, _ => 'a');
    SolidText(size + 1, text);
    SolidText(size, text[..size]);
    PiecesFromStep(text, 0, size, overlap);
    var next := NextPos(text, 0, size, overlap);
    assert next >= size + 1;
    assert Windows(text, next, size, overlap) == [];
    var chunks := ChunksOf(text, size, overlap);
    assert chunks == AddPiece(text[..size], []);
    assert !IsSpace(text[0]) && !IsSpace(text[size]);
    if Placed(text, chunks, ats) {
      assert !(InChunk(chunks, ats, 0) && InChunk(chunks, ats, size));
    }
  }

  // Exactly when chunking never loses a visible rune of any text.
  lemma NeverLosesExactly(size: nat, overlap: int)
    ensures NeverLoses(size, overlap) <==> size >= 1 && overlap >= 0
  {
    if size >= 1 && overlap >= 0 {
      forall text: string ensures Coverable(text, size, overlap) {
        var ats := ChunksCover(text, size, overlap);
      }
    } else {
      var text: string := seq(size + 1, _ => 'a');
      forall ats ensures !Covers(TrimSpace(text), ChunksOf(text, size, overlap), ats) {
        LosingText(size, overlap, ats);
      }
      assert !Coverable(text, size, overlap);
    }
  }

  // ---- No overlap: the chunks partition the visible runes

  lemma VisibleSplit(runes: string, pos: nat, end: nat, next: nat)
    requires pos <= end <= next <= |runes|
    ensures Visible(runes[pos..]) == Visible(runes[pos..end]) + Visible(runes[end..next]) + Visible(runes[next..])
  {
    assert runes[pos..] == runes[pos..end] + runes[end..];
    assert runes[end..] == runes[end..next] + runes[next..];
    VisibleAppend(runes[pos..end], runes[end..]);
    VisibleAppend(runes[end..next], runes[next..]);
  }

  lemma VisiblePiece(part: string, rest: seq<string>)
    ensures Visible(Concat(AddPiece(TrimSpace(part), rest))) == Visible(part) + Visible(Concat(rest))
  {
    var piece := TrimSpace(part);
    var at := TrimSlice(part);
    VisibleAppend(piece, Concat(rest));
    ConcatFirst(piece, rest);
  }

  lemma SameText(whole: string, part: string, gap: string, after: string, all: string, tail: string)
    requires whole == part + gap + after && gap == [] && all == part + tail && tail == after
    ensures all == whole
  {}

  lemma {:induction false} PiecesPartition(runes: string, pos: nat, size: nat)
    requires size >= 1 && pos <= |runes|
    ensures Visible(Concat(PiecesFrom(runes, pos, size, 0))) == Visible(runes[pos..])
    decreases |runes| - pos
  {
    if pos < |runes| {
      var end, next := WindowEnd(runes, pos, size), NextPos(runes, pos, size, 0);
      GapIsBlank(runes, pos, size);
      PiecesPartition(runes, next, size);
      PiecesFromStep(runes, pos, size, 0);
      VisibleSplit(runes, pos, end, next);
      VisiblePiece(runes[pos..end], PiecesFrom(runes, next, size, 0));
      SameText(Visible(runes[pos..]), Visible(runes[pos..end]), Visible(runes[end..next]), Visible(runes[next..]),
               Visible(Concat(PiecesFrom(runes, pos, size, 0))), Visible(Concat(PiecesFrom(runes, next, size, 0))));
    }
  }

  // Without overlap only the space at the cut lies between two windows.
  lemma {:induction false} GapIsBlank(runes: string, pos: nat, size: nat)
    requires size >= 1 && pos < |runes|
    ensures var end, next := WindowEnd(runes, pos, size), NextPos(runes, pos, size, 0);
      pos <= end <= next <= |runes| && Visible(runes[end..next]) == []
  {
    var end, next := WindowEnd(runes, pos, size), NextPos(runes, pos, size, 0);
    if end < next {
      assert next == end + 1;
      assert runes[end..next] == [' '];
    }
  }

  // With no overlap the chunks hold the visible runes of the text, in order,
  // each once.
  lemma ChunksPartition(text: string, size: nat)
    requires size >= 1
    ensures Visible(Concat(ChunksOf(text, size, 0))) == Visible(text)
  {
    var runes := TrimSpace(text);
    PiecesPartition(runes, 0, size);
    assert runes[0..] == runes;
    var at := TrimSlice(text);
  }

  // ---- How many chunks

  // A text that fits after trimming is one chunk, a blank text none.
  lemma FittingText(text: string, size: nat, overlap: int)
    requires |TrimSpace(text)| <= size
    ensures ChunksOf(text, size, overlap) == if TrimSpace(text) == "" then [] else [TrimSpace(text)]
  {
    var runes := TrimSpace(text);
    if runes != "" {
      PiecesFromStep(runes, 0, size, overlap);
      assert Windows(runes, |runes|, size, overlap) == [];
      assert runes[0..|runes|] == runes;
      TrimTwice(text);
    }
  }

  lemma {:induction false} TrimTwice(text: string)
    ensures TrimSpace(TrimSpace(text)) == TrimSpace(text)
  {
    TrimEnds(text);
  }

  lemma {:induction false} PiecesAtLeast(runes: string, ws: seq<Window>, i: nat)
    requires forall w <- ws :: w.from <= w.to <= |runes|
    requires InWindow(ws, i) && i < |runes| && !IsSpace(runes[i])
    ensures Pieces(runes, ws) != []
  {
    InFirstOrRest(runes, ws, i);
    if ws[0].from <= i < ws[0].to {
      var at := PieceAt(runes, ws[0]);
    } else {
      PiecesAtLeast(runes, ws[1..], i);
    }
  }

  lemma LastRuneLeft(runes: string, pos: nat, size: nat, overlap: int)
    requires size >= 1 && overlap >= 0
    requires pos < |runes| && !IsSpace(runes[|runes| - 1])
    ensures PiecesFrom(runes, pos, size, overlap) != []
  {
    WindowsFit(runes, pos, size, overlap);
    WindowsCover(runes, pos, size, overlap, |runes| - 1);
    PiecesAtLeast(runes, Windows(runes, pos, size, overlap), |runes| - 1);
  }

  lemma FirstWindowEnds(runes: string, size: nat, overlap: int)
    requires size >= 1 && overlap >= 0 && size < |runes| && !IsSpace(runes[0])
    ensures 0 < WindowEnd(runes, 0, size) && NextPos(runes, 0, size, overlap) < |runes|
  {}

  lemma SolidPrefix(runes: string, end: nat)
    requires 0 < end <= |runes| && !IsSpace(runes[0])
    ensures TrimSpace(runes[0..end]) != ""
  {
    assert runes[0..end][0] == runes[0];
    var at := TrimSlice(runes[0..end]);
  }

  // A text that does not fit gives at least two chunks.
  lemma LongText(text: string, size: nat, overlap: int)
    requires size >= 1 && overlap >= 0 && |TrimSpace(text)| > size
    ensures |ChunksOf(text, size, overlap)| > 1
  {
    var runes := TrimSpace(text);
    TrimEnds(text);
    FirstWindowEnds(runes, size, overlap);
    SolidPrefix(runes, WindowEnd(runes, 0, size));
    LastRuneLeft(runes, NextPos(runes, 0, size, overlap), size, overlap);
    PiecesFromStep(runes, 0, size, overlap);
  }

  // There is more than one chunk exactly when the trimmed text does not fit,
  // so NeedsChunking, which looks at the untrimmed text, is right exactly when
  // trimming does not make the text fit.
  lemma MoreThanOneChunk(text: string, size: nat, overlap: int)
    requires size >= 1 && overlap >= 0
    ensures |ChunksOf(text, size, overlap)| > 1 <==> |TrimSpace(text)| > size
    ensures (|text| > size <==> |ChunksOf(text, size, overlap)| > 1) <==> !(|TrimSpace(text)| <= size < |text|)
  {
    var at := TrimSlice(text);
    if |TrimSpace(text)| > size {
      LongText(text, size, overlap);
    } else {
      FittingText(text, size, overlap);
    }
  }

  // " a" needs no chunking at a size of one, though NeedsChunking says so.
  lemma PaddedText()
    ensures |" a"| > 1 && ChunksOf(" a", 1, 0) == ["a"]
  {
    assert " a"[1..] == "a";
    assert TrimLeft(" a") == "a" && TrimRight("a") == "a";
    FittingText(" a", 1, 0);
  }

  // ---- The chunker

  // Division as Go does it, toward zero.
  function TruncatedDiv(x: int, y: nat): int
    requires y > 0
  {
    if x >= 0 then x / y else -(-x / y)
  }

  class CharacterChunker {
    const chunkSize: int
    const overlap: int

    // NewCharacterChunker: an overlap that leaves no progress becomes a quarter.
    constructor (chunkSize: int, overlap: int)
      ensures this.chunkSize == chunkSize
      ensures overlap < chunkSize ==> this.overlap == overlap
      ensures overlap >= chunkSize ==> this.overlap == if chunkSize >= 0 then chunkSize / 4 else -(-chunkSize / 4)
      ensures chunkSize >= 1 ==> this.overlap < chunkSize && (overlap >= 0 ==> this.overlap >= 0)
    {
      this.chunkSize := chunkSize;
      this.overlap := if overlap >= chunkSize then TruncatedDiv(chunkSize, 4) else overlap;
    }

    // With a negative size every text that is not blank is sliced out of range.
    method Chunk(text: string) returns (chunks: seq<string>)
      requires chunkSize >= 0 || TrimSpace(text) == ""
      ensures chunks == if chunkSize < 0 then [] else ChunksOf(text, chunkSize, overlap)
    {
      var runes := TrimSpace(text);
      if runes == "" {
        if chunkSize >= 0 { FittingText(text, chunkSize, overlap); }
        return [];
      }
      if |runes| <= chunkSize {
        FittingText(text, chunkSize, overlap);
        return [runes];
      }
      chunks := [];
      var pos := 0;
      while pos < |runes|
        invariant 0 <= pos
        invariant chunks + PiecesFrom(runes, pos, chunkSize, overlap) == ChunksOf(text, chunkSize, overlap)
        decreases |runes| - pos
      {
        var chunk, next := NextChunk(runes, pos);
        PiecesFromStep(runes, pos, chunkSize, overlap);
        AddPieceAppend(chunks, chunk, PiecesFrom(runes, next, chunkSize, overlap));
        if chunk != "" {
          chunks := chunks + [chunk];
        }
        pos := next;
      }
    }

    // It is safe to skip chunking when this says so.
    method NeedsChunking(text: string) returns (needed: bool)
      ensures needed <==> |text| > chunkSize
      ensures !needed ==> chunkSize >= 0 && |ChunksOf(text, chunkSize, overlap)| <= 1
    {
      needed := |text| > chunkSize;
      if !needed {
        var at := TrimSlice(text);
        FittingText(text, chunkSize, overlap);
      }
    }

    method NextChunk(runes: string, pos: nat) returns (chunk: string, next: nat)
      requires chunkSize >= 0 && pos < |runes|
      ensures chunk == TrimSpace(runes[pos..WindowEnd(runes, pos, chunkSize)])
      ensures next == NextPos(runes, pos, chunkSize, overlap) && next > pos
    {
      var end := pos + chunkSize;
      if end >= |runes| {
        assert runes[pos..] == runes[pos..|runes|];
        return TrimSpace(runes[pos..]), |runes|;
      }
      var splitAt := FindWordBoundary(runes, pos, end);
      if splitAt >= 0 {
        var nxt := splitAt + 1 - overlap;
        if nxt <= pos {
          nxt := pos + 1;
        }
        return TrimSpace(runes[pos..splitAt]), nxt;
      }
      var nxt := end - overlap;
      if nxt <= pos {
        nxt := pos + 1;
      }
      return TrimSpace(runes[pos..end]), nxt;
    }

    method FindWordBoundary(runes: string, pos: nat, end: nat) returns (splitAt: int)
      requires chunkSize >= 0 && end == pos + chunkSize < |runes|
      ensures splitAt == Boundary(runes, pos, chunkSize)
      ensures splitAt >= 0 ==> pos + chunkSize / 2 <= splitAt < end && runes[splitAt] == ' '
      ensures forall i :: pos + chunkSize / 2 <= i < end && splitAt < i ==> runes[i] != ' '
    {
      var halfPoint := pos + chunkSize / 2;
      var i := end - 1;
      while i >= halfPoint
        invariant halfPoint - 1 <= i < end
        invariant LastSpace(runes, halfPoint, i + 1) == Boundary(runes, pos, chunkSize)
      {
        if runes[i] == ' ' {
          return i;
        }
        i := i - 1;
      }
      return -1;
    }
  }
}
