/** How many runes neighbouring chunks share (text/chunker.go:13-14, 29-31, 62-85).
    The windows overlap by a known number of runes; trimming takes the spaces at
    their edges away. */
module ChunkOverlap {
  import opened Chunker

  // ---- The windows with something to show

  function Keep(ws: seq<Window>, blank: Window -> bool): seq<Window> {
    if ws == [] then [] else if blank(ws[0]) then Keep(ws[1..], blank) else [ws[0]] + Keep(ws[1..], blank)
  }

  // The windows between position i and j are blank, those at i and j are not.
  predicate Neighbours(ws: seq<Window>, blank: Window -> bool, i: nat, j: nat) {
    && i < j < |ws| && !blank(ws[i]) && !blank(ws[j])
    && forall m :: i < m < j ==> blank(ws[m])
  }

  lemma {:induction false} FirstKept(ws: seq<Window>, blank: Window -> bool) returns (j: nat)
    requires Keep(ws, blank) != []
    ensures j < |ws| && Keep(ws, blank)[0] == ws[j] && !blank(ws[j])
    ensures forall m :: 0 <= m < j ==> blank(ws[m])
  {
    if blank(ws[0]) {
      var l := FirstKept(ws[1..], blank);
      j := l + 1;
      forall m | 0 <= m < j ensures blank(ws[m]) {
        if m > 0 { assert ws[m] == ws[1..][m - 1]; }
      }
    } else {
      j := 0;
    }
  }

  // Where two neighbours among the kept windows come from.
  lemma {:induction false} KeptNeighbours(ws: seq<Window>, blank: Window -> bool, k: nat) returns (i: nat, j: nat)
    requires k + 1 < |Keep(ws, blank)|
    ensures Neighbours(ws, blank, i, j) && Keep(ws, blank)[k] == ws[i] && Keep(ws, blank)[k + 1] == ws[j]
  {
    var rest := ws[1..];
    if !blank(ws[0]) && k == 0 {
      var l := FirstKept(rest, blank);
      i, j := 0, l + 1;
    } else {
      var a, b := KeptNeighbours(rest, blank, if blank(ws[0]) then k else k - 1);
      i, j := a + 1, b + 1;
    }
    forall m | i < m < j ensures blank(ws[m]) { assert ws[m] == rest[m - 1]; }
  }

  function BlankIn(runes: string): Window -> bool {
    (w: Window) => w.from <= w.to <= |runes| && PieceOf(runes, w) == ""
  }

  function Solid(runes: string, ws: seq<Window>): seq<Window> { Keep(ws, BlankIn(runes)) }

  // Chunk k is the piece of the k-th of them, at its place.
  predicate SolidAt(runes: string, ws: seq<Window>, k: nat)
    requires forall w <- ws :: w.from <= w.to <= |runes|
  {
    var solid := Solid(runes, ws);
    && k < |solid| && k < |Pieces(runes, ws)| && k < |Places(runes, ws)|
    && solid[k] in ws && PieceOf(runes, solid[k]) != ""
    && Pieces(runes, ws)[k] == PieceOf(runes, solid[k])
    && Places(runes, ws)[k] == PlaceOf(runes, solid[k])
  }

  lemma {:induction false} SolidPieces(runes: string, ws: seq<Window>)
    requires forall w <- ws :: w.from <= w.to <= |runes|
    ensures |Pieces(runes, ws)| == |Places(runes, ws)| == |Solid(runes, ws)|
    ensures forall k :: 0 <= k < |Solid(runes, ws)| ==> SolidAt(runes, ws, k)
  {
    if ws != [] {
      SolidPieces(runes, ws[1..]);
      forall k | 0 <= k < |Solid(runes, ws)| ensures SolidAt(runes, ws, k) {
        var first := if PieceOf(runes, ws[0]) == "" then 0 else 1;
        if k >= first { assert SolidAt(runes, ws[1..], k - first); }
      }
    }
  }

  // ---- One window, trimmed

  // One past the last rune of the piece of w.
  function EndOf(runes: string, w: Window): nat
    requires w.from <= w.to <= |runes|
  {
    PlaceOf(runes, w) + |PieceOf(runes, w)|
  }

  // The piece of w starts at its first visible rune and ends with its last.
  lemma Edges(runes: string, w: Window)
    requires w.from <= w.to <= |runes| && PieceOf(runes, w) != ""
    ensures w.from <= PlaceOf(runes, w) < EndOf(runes, w) <= w.to
    ensures !IsSpace(runes[PlaceOf(runes, w)]) && !IsSpace(runes[EndOf(runes, w) - 1])
    ensures forall i :: w.from <= i < w.to && !IsSpace(runes[i]) ==> PlaceOf(runes, w) <= i < EndOf(runes, w)
    ensures PlaceOf(runes, w) == w.from <==> !IsSpace(runes[w.from])
    ensures EndOf(runes, w) == w.to <==> !IsSpace(runes[w.to - 1])
  {
    var at := PieceAt(runes, w);
    var piece := PieceOf(runes, w);
    TrimEnds(runes[w.from..w.to]);
    assert piece[0] == runes[at] && piece[|piece| - 1] == runes[at + |piece| - 1];
  }

  lemma Blank(runes: string, w: Window, i: nat)
    requires w.from <= i < w.to <= |runes| && PieceOf(runes, w) == ""
    ensures IsSpace(runes[i])
  {
    var at := PieceAt(runes, w);
  }

  // ---- Two neighbouring windows

  // A window does not end before the one in front of it.
  lemma EndsGrow(runes: string, pos: nat, size: nat, next: nat)
    requires pos < next < |runes| && pos + size < |runes|
    ensures WindowEnd(runes, pos, size) <= WindowEnd(runes, next, size)
  {
    if next + size < |runes| {
      var a, b := Boundary(runes, pos, size), Boundary(runes, next, size);
      if b >= 0 { BoundariesGrow(runes, pos, size, next, a, b); }
    }
  }

  lemma BoundariesGrow(runes: string, pos: nat, size: nat, next: nat, a: int, b: int)
    requires pos < next && next + size < |runes| && b >= 0
    requires a == LastSpace(runes, pos + size / 2, pos + size) && b == LastSpace(runes, next + size / 2, next + size)
    ensures if a >= 0 then a <= b else pos + size <= b
  {
    assert runes[b] == ' ' && next + size / 2 <= b;
    if a >= 0 { assert runes[a] == ' '; }
  }

  // The facts about windows i and i + 1 that the sharing needs.
  lemma StepFacts(runes: string, ws: seq<Window>, size: nat, overlap: nat, i: nat)
    requires ws == Windows(runes, 0, size, overlap) && i + 1 < |ws|
    ensures ws[i].from <= ws[i].to <= |runes| && ws[i + 1].from <= ws[i + 1].to <= |runes|
    ensures ws[i].from < ws[i + 1].from < |runes| && ws[i].from + size < |runes|
    ensures ws[i].to == WindowEnd(runes, ws[i].from, size)
    ensures ws[i + 1].from == NextPos(runes, ws[i].from, size, overlap)
    ensures ws[i].to <= ws[i + 1].to && ws[i].to - ws[i + 1].from <= overlap
  {
    WindowsFit(runes, 0, size, overlap);
    WindowsAdvance(runes, 0, size, overlap);
    WindowStep(runes, 0, size, overlap, i);
    SharedAtMost(runes, 0, size, overlap, i);
    WindowEndAt(runes, 0, size, overlap, i + 1);
    EndsGrow(runes, ws[i].from, size, ws[i + 1].from);
  }

  lemma {:induction false} WindowEndAt(runes: string, pos: nat, size: nat, overlap: int, k: nat)
    requires k < |Windows(runes, pos, size, overlap)|
    ensures var w := Windows(runes, pos, size, overlap)[k]; w.from < |runes| && w.to == WindowEnd(runes, w.from, size)
    decreases k
  {
    if k > 0 { WindowEndAt(runes, NextPos(runes, pos, size, overlap), size, overlap, k - 1); }
  }

  // Behind a blank window nothing is shared: the piece before it ends where it
  // starts, at the latest.
  lemma BlankBetween(runes: string, v: Window, m: Window)
    requires v.from < m.from && v.from <= v.to <= m.to <= |runes| && m.from <= m.to
    requires PieceOf(runes, v) != "" && PieceOf(runes, m) == ""
    ensures EndOf(runes, v) <= m.from
  {
    Edges(runes, v);
    var last := EndOf(runes, v) - 1;
    if last >= m.from { Blank(runes, m, last); }
  }

  // What the pieces of neighbouring windows share: what the windows share, less
  // the spaces trimmed off the end of one and off the start of the other.
  lemma PiecesShare(runes: string, v: Window, w: Window)
    requires v.from <= v.to <= |runes| && w.from <= w.to <= |runes| && v.from < w.from && v.to <= w.to
    requires PieceOf(runes, v) != "" && PieceOf(runes, w) != ""
    ensures var shared := EndOf(runes, v) - PlaceOf(runes, w);
      && shared <= v.to - w.from
      && (shared == v.to - w.from <==> !IsSpace(runes[v.to - 1]) && !IsSpace(runes[w.from]))
      && (shared > 0 ==> PlaceOf(runes, v) <= PlaceOf(runes, w) && EndOf(runes, v) <= EndOf(runes, w))
  {
    Edges(runes, v);
    Edges(runes, w);
    var b, last := PlaceOf(runes, w), EndOf(runes, v) - 1;
    if last >= b {
      assert w.from <= last < w.to && !IsSpace(runes[last]);
      assert v.from <= b < v.to && !IsSpace(runes[b]);
    }
  }

  // ---- Neighbouring chunks

  // Chunk k of the text, its place, and the window it was cut from.
  ghost predicate CutFrom(text: string, size: nat, overlap: nat, k: nat, w: Window, at: nat) {
    && TextFits(text, size, overlap)
    && var runes, ws := TrimSpace(text), TextWindows(text, size, overlap);
       && k < |ChunksOf(text, size, overlap)| && k < |Places(runes, ws)| && k < |Solid(runes, ws)|
       && w == Solid(runes, ws)[k] && at == Places(runes, ws)[k]
       && w in ws && ChunksOf(text, size, overlap)[k] == PieceOf(runes, w) && at == PlaceOf(runes, w)
  }

  lemma Cuts(text: string, size: nat, overlap: nat, k: nat) returns (w: Window, at: nat)
    requires k < |ChunksOf(text, size, overlap)|
    ensures CutFrom(text, size, overlap, k, w, at) && PieceOf(TrimSpace(text), w) != ""
  {
    var runes, ws := TrimSpace(text), TextWindows(text, size, overlap);
    WindowsFit(runes, 0, size, overlap);
    SolidPieces(runes, ws);
    assert SolidAt(runes, ws, k);
    w, at := Solid(runes, ws)[k], Places(runes, ws)[k];
  }

  // The window behind chunk k's is the next one, or there are blank windows in
  // between, and then nothing is shared.
  lemma NextWindow(text: string, size: nat, overlap: nat, k: nat, v: Window, a: nat, w: Window, b: nat)
    requires CutFrom(text, size, overlap, k, v, a) && CutFrom(text, size, overlap, k + 1, w, b)
    ensures var runes := TrimSpace(text);
      && v.from <= v.to <= |runes| && w.from <= w.to <= |runes| && v.from + size < |runes|
      && var next := NextPos(runes, v.from, size, overlap);
      && PieceOf(runes, v) != "" && PieceOf(runes, w) != ""
      && v.to == WindowEnd(runes, v.from, size)
      && v.from < next < |runes| && v.to <= WindowEnd(runes, next, size) && v.to - next <= overlap
      && (w.from == next ==> w.to == WindowEnd(runes, next, size))
      && (w.from != next ==> EndOf(runes, v) <= next < w.from && BlankAt(runes, next, size))
  {
    var runes, ws := TrimSpace(text), TextWindows(text, size, overlap);
    var i, j := KeptNeighbours(ws, BlankIn(runes), k);
    WindowsAdvance(runes, 0, size, overlap);
    StepFacts(runes, ws, size, overlap, i);
    WindowEndAt(runes, 0, size, overlap, i + 1);
    if j > i + 1 {
      assert BlankIn(runes)(ws[i + 1]);
      BlankBetween(runes, ws[i], ws[i + 1]);
    }
  }

  // The window at pos shows nothing.
  predicate BlankAt(runes: string, pos: nat, size: nat) {
    pos < |runes| && WindowEnd(runes, pos, size) >= pos
    && PieceOf(runes, Window(pos, WindowEnd(runes, pos, size))) == ""
  }

  predicate Within(i: int, from: int, to: int) { from <= i < to }

  // How many runes neighbouring chunks share: what their windows share, less the
  // spaces trimmed off the edges; nothing if a blank window lies between them.
  // The runes in both are those from the start of the second to the end of the
  // first.
  lemma SharedRunes(text: string, size: nat, overlap: nat, k: nat, v: Window, a: nat, w: Window, b: nat)
    requires overlap < size
    requires CutFrom(text, size, overlap, k, v, a) && CutFrom(text, size, overlap, k + 1, w, b)
    ensures var runes, chunks := TrimSpace(text), ChunksOf(text, size, overlap);
      && v.from + size < |runes|
      && var split, next := Boundary(runes, v.from, size), NextPos(runes, v.from, size, overlap);
      var end := a + |chunks[k]|;
      && end - b <= overlap
      && (if w.from == next
          then end - b == Shared(split, v.from, overlap) - (v.to - end) - (b - next) && end <= v.to && next <= b
          else BlankAt(runes, next, size) && end < b)
      && (forall i :: Within(i, a, end) && Within(i, b, b + |chunks[k + 1]|) <==> Within(i, b, end))
  {
    var runes := TrimSpace(text);
    NextWindow(text, size, overlap, k, v, a, w, b);
    Edges(runes, v);
    Edges(runes, w);
    if w.from == NextPos(runes, v.from, size, overlap) { PiecesShare(runes, v, w); }
  }

  // Neighbouring chunks share the promised `overlap` runes exactly when the cut
  // between them was forced and the runes at both edges are visible.
  lemma OverlapKeptExactly(text: string, size: nat, overlap: nat, k: nat, v: Window, a: nat, w: Window, b: nat)
    requires 0 < overlap < size
    requires CutFrom(text, size, overlap, k, v, a) && CutFrom(text, size, overlap, k + 1, w, b)
    ensures var runes, chunks := TrimSpace(text), ChunksOf(text, size, overlap);
      && v.from < v.to && v.from + size < |runes|
      && var next := NextPos(runes, v.from, size, overlap);
      && next < |runes| && v.to <= |runes|
      && (a + |chunks[k]| - b == overlap <==>
            Boundary(runes, v.from, size) < 0 && !IsSpace(runes[v.to - 1]) && !IsSpace(runes[next]))
  {
    var runes := TrimSpace(text);
    NextWindow(text, size, overlap, k, v, a, w, b);
    var next := NextPos(runes, v.from, size, overlap);
    Edges(runes, v);
    if w.from == next {
      PiecesShare(runes, v, w);
    } else {
      Edges(runes, w);
      if next < WindowEnd(runes, next, size) {
        Blank(runes, Window(next, WindowEnd(runes, next, size)), next);
      }
    }
  }

  // With no overlap asked for, none is given.
  lemma NoOverlap(text: string, size: nat, k: nat, v: Window, a: nat, w: Window, b: nat)
    requires size > 0 && CutFrom(text, size, 0, k, v, a) && CutFrom(text, size, 0, k + 1, w, b)
    ensures a + |ChunksOf(text, size, 0)[k]| <= b
  {
    SharedRunes(text, size, 0, k, v, a, w, b);
  }

  // Trimming can take shared runes away after a forced cut too: here the second
  // window starts with a line break, and one rune is shared instead of two.
  lemma TrimEatsOverlap()
    ensures ChunksOf("abcd\nefgh", 6, 2) == ["abcd\ne", "efgh"]
    ensures Boundary("abcd\nefgh", 0, 6) < 0 && Places("abcd\nefgh", [Window(0, 6), Window(4, 9)]) == [0, 5]
  {
    var t := "abcd\nefgh";
    TrimWindows();
    TrimPieces();
    var ws := [Window(0, 6), Window(4, 9)];
    assert ws[1..] == [Window(4, 9)] && ws[1..][1..] == [];
    assert t[0..6] == "abcd\ne" && t[4..9] == "\nefgh";
  }

  lemma TrimWindows()
    ensures Windows("abcd\nefgh", 0, 6, 2) == [Window(0, 6), Window(4, 9)] && Boundary("abcd\nefgh", 0, 6) == -1
  {
    var t := "abcd\nefgh";
    assert Boundary(t, 0, 6) == -1;
    assert WindowEnd(t, 0, 6) == 6 && NextPos(t, 0, 6, 2) == 4;
    assert WindowEnd(t, 4, 6) == 9 && NextPos(t, 4, 6, 2) == 9;
    assert Windows(t, 9, 6, 2) == [];
    assert Windows(t, 4, 6, 2) == [Window(4, 9)];
  }

  lemma TrimPieces()
    ensures TrimSpace("abcd\nefgh") == "abcd\nefgh" && TrimSpace("abcd\ne") == "abcd\ne"
    ensures TrimSpace("\nefgh") == "efgh" && Lead("\nefgh") == 1 && Lead("abcd\ne") == 0
  {
    assert "\nefgh"[1..] == "efgh";
    assert TrimLeft("\nefgh") == TrimLeft("efgh") == "efgh";
  }
}
