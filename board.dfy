/**
  The 3x3 board as a value: nine optional marks in row-major order
  (cell = row * 3 + column), the eight winning lines, and what can be read
  off a board (the first complete line, whether every cell is filled, how
  many cells hold a given mark).
 */
module Board {
  import opened Wrappers
  import Colour

  /** `CellState`: the two marks. X moves first. */
  datatype CellState = X | O {
    /** `CellState::switch`: hand the turn to the other mark. */
    function Switch(): (other: CellState)
      ensures other != this
    {
      match this
      case X => O
      case O => X
    }

    /** `CellState::get_color`: X is drawn black, O red, both opaque. */
    function GetColor(): (c: Colour.Color)
      ensures Colour.ToBytes(c).3 == 255
    {
      match this
      case X => Colour.FromRgb(0, 0, 0)
      case O => Colour.FromRgb(255, 0, 0)
    }
  }

  /** The two marks get different colours, and each agrees with the packed literal used for its turn indicator. */
  lemma MarkColorsDiffer()
    ensures X.GetColor() != O.GetColor()
    ensures X.GetColor() == Colour.FromPacked(0x0000_00FF)
    ensures O.GetColor() == Colour.FromPacked(0xFF00_00FF)
  {
    Colour.PackedLiteralsAreOpaque();
  }

  /** Switching twice gives the turn back to the mark that had it. */
  lemma SwitchTwice(m: CellState)
    ensures m.Switch().Switch() == m
  {
  }

  type Cells = seq<Option<CellState>>

  predicate WellSized(b: Cells)
  {
    |b| == 9
  }

  function Empty(): (b: Cells)
    ensures WellSized(b)
    ensures forall i :: 0 <= i < 9 ==> b[i].None?
  {
    seq(9, _ => None)
  }

  /** The line table, scanned in this order: rows, columns, diagonals. */
  const Lines: seq<(nat, nat, nat)> :=
    [(0, 1, 2), (3, 4, 5), (6, 7, 8),
     (0, 3, 6), (1, 4, 7), (2, 5, 8),
     (0, 4, 8), (2, 4, 6)]

  lemma LinesInRange(k: nat)
    requires k < |Lines|
    ensures Lines[k].0 < 9 && Lines[k].1 < 9 && Lines[k].2 < 9
    ensures Lines[k].0 != Lines[k].1 && Lines[k].1 != Lines[k].2 && Lines[k].0 != Lines[k].2
  {
  }

  /** Line `k` is held entirely by one mark (three empty cells do not count). */
  predicate Complete(b: Cells, k: nat)
    requires WellSized(b) && k < |Lines|
  {
    LinesInRange(k);
    var (p, q, r) := Lines[k];
    b[p].Some? && b[p] == b[q] && b[p] == b[r]
  }

  /** Line `k` is the first complete line of the table. */
  predicate FirstComplete(b: Cells, k: nat)
    requires WellSized(b) && k < |Lines|
  {
    Complete(b, k) && forall j :: 0 <= j < k ==> !Complete(b, j)
  }

  /** The winner report `(mark, first cell, third cell)`. */
  datatype Win = Win(mark: CellState, start: nat, end: nat)

  /** The report for a complete line: its mark and its first and third cells. */
  function WinOf(b: Cells, k: nat): (w: Win)
    requires WellSized(b) && k < |Lines| && Complete(b, k)
    ensures w.start < 9 && w.end < 9
    ensures b[w.start] == b[w.end] == Some(w.mark)
  {
    LinesInRange(k);
    Win(b[Lines[k].0].value, Lines[k].0, Lines[k].2)
  }

  /** The scan of `get_winner` from line `k` on. */
  function WinnerFrom(b: Cells, k: nat): Option<Win>
    requires WellSized(b) && k <= |Lines|
    decreases |Lines| - k
  {
    if k == |Lines| then None
    else if Complete(b, k) then Some(WinOf(b, k))
    else WinnerFrom(b, k + 1)
  }

  /** The scan from line `k` reports the first complete line at or after `k`, or nothing if there is none. */
  lemma {:induction false} WinnerFromIsFirstComplete(b: Cells, k: nat)
    requires WellSized(b) && k <= |Lines|
    ensures WinnerFrom(b, k).None? <==> forall j :: k <= j < |Lines| ==> !Complete(b, j)
    ensures WinnerFrom(b, k).Some? ==>
      exists j :: k <= j < |Lines| && Complete(b, j) && WinnerFrom(b, k).value == WinOf(b, j) &&
                  forall i :: k <= i < j ==> !Complete(b, i)
    decreases |Lines| - k
  {
    if k < |Lines| && !Complete(b, k) {
      WinnerFromIsFirstComplete(b, k + 1);
    }
  }

  /** `GameState::get_winner` on a board value: the first complete line, if any. */
  function Winner(b: Cells): Option<Win>
    requires WellSized(b)
  {
    WinnerFrom(b, 0)
  }

  /**
    The winner is reported exactly when some line is complete, and then it is
    the first complete line of the table, reported by its mark and end cells.
   */
  lemma WinnerIsFirstComplete(b: Cells)
    requires WellSized(b)
    ensures Winner(b).None? <==> forall k :: 0 <= k < |Lines| ==> !Complete(b, k)
    ensures forall k :: 0 <= k < |Lines| && FirstComplete(b, k) ==> Winner(b) == Some(WinOf(b, k))
  {
    WinnerFromIsFirstComplete(b, 0);
    forall k | 0 <= k < |Lines| && FirstComplete(b, k)
      ensures Winner(b) == Some(WinOf(b, k))
    {
      var j :| 0 <= j < |Lines| && Complete(b, j) && Winner(b).value == WinOf(b, j) &&
               forall i :: 0 <= i < j ==> !Complete(b, i);
      assert !(j < k) && !(k < j);
    }
  }

  /** On any board, a line whose first cell is empty is not complete, whatever its other cells hold. */
  lemma EmptyLineNeverCounts(b: Cells)
    requires WellSized(b)
    ensures forall k :: 0 <= k < |Lines| && b[Lines[k].0].None? ==> !Complete(b, k)
  {
  }

  /** An empty board has no winner: each of its lines starts with an empty cell. */
  lemma EmptyHasNoWinner()
    ensures Winner(Empty()).None?
  {
  }

  /** `GameState::is_draw`: every cell holds a mark (a winning board may also be full). */
  predicate Full(b: Cells)
  {
    forall i :: 0 <= i < |b| ==> b[i].Some?
  }

  /** Number of cells holding mark `m`. */
  function Count(b: Cells, m: CellState): (n: nat)
    ensures n <= |b|
  {
    if b == [] then 0
    else (if b[0] == Some(m) then 1 else 0) + Count(b[1..], m)
  }

  /** Number of cells holding any mark. */
  function Marks(b: Cells): nat
  {
    Count(b, X) + Count(b, O)
  }

  /** A board is full exactly when all of its cells are counted as marked. */
  lemma {:induction false} FullIffAllMarked(b: Cells)
    ensures Marks(b) <= |b|
    ensures Full(b) <==> Marks(b) == |b|
  {
    if b != [] {
      FullIffAllMarked(b[1..]);
      match b[0]
      case None =>
      case Some(m) => assert m == X || m == O;
      assert Full(b) <==> b[0].Some? && Full(b[1..]) by {
        if b[0].Some? && Full(b[1..]) {
          forall i | 0 <= i < |b| ensures b[i].Some? {
            if i > 0 { assert b[i] == b[1..][i - 1]; }
          }
        }
      }
    }
  }

  /** The empty board holds no mark. */
  lemma {:induction false} CountEmpty(b: Cells, m: CellState)
    requires forall i :: 0 <= i < |b| ==> b[i].None?
    ensures Count(b, m) == 0
  {
    if b != [] {
      CountEmpty(b[1..], m);
    }
  }

  /** Writing `v` into cell `i` moves the count of `m` by what leaves and what arrives. */
  lemma {:induction false} CountUpdate(b: Cells, i: nat, v: Option<CellState>, m: CellState)
    requires i < |b|
    ensures Count(b[i := v], m) + (if b[i] == Some(m) then 1 else 0)
            == Count(b, m) + (if v == Some(m) then 1 else 0)
  {
    if i == 0 {
      assert b[i := v][1..] == b[1..];
    } else {
      CountUpdate(b[1..], i - 1, v, m);
      assert b[i := v][1..] == b[1..][i - 1 := v];
    }
  }

  /** A full board with a winning line: `is_draw` alone does not rule out a win. */
  lemma FullBoardMayHaveWinner()
    ensures var b := [Some(X), Some(X), Some(X),
                      Some(O), Some(O), Some(X),
                      Some(X), Some(O), Some(O)];
            Full(b) && Winner(b) == Some(Win(X, 0, 2))
  {
  }
}
