/**
  The game's mutable state and the click handler. `Step` is the transition a
  click makes on a snapshot of the state; the class `GameState` holds the
  cells in a nine-element array, as the source does, and its methods are
  proved to follow `Step`.
 */
module Game {
  import opened Wrappers
  import opened Board

  /**
    Where a click landed once the host's pixel coordinates have been resolved:
    above the board (in the header that shows whose turn it is) or on the
    board at a row and column, which select cell `row * 3 + col`.
   */
  datatype Pointer = AboveBoard | OnBoard(row: nat, col: nat) {
    function Index(): nat
      requires OnBoard?
    {
      row * 3 + col
    }
  }

  /** The cells and the mark whose turn it is. */
  datatype Snapshot = Snapshot(cells: Cells, current: CellState)

  /** The state at start-up and after every reset: an empty board, X to move. */
  function Initial(): Snapshot
  {
    Snapshot(Empty(), X)
  }

  /** The game has ended: a line is complete or no cell is left. */
  predicate Over(b: Cells)
    requires WellSized(b)
  {
    Winner(b).Some? || Full(b)
  }

  /** X has placed as many marks as O when X is to move, and one more when O is. */
  predicate Balanced(s: Snapshot)
  {
    Count(s.cells, X) == Count(s.cells, O) + (if s.current == X then 0 else 1)
  }

  /**
    What a click does to the cells and the turn: a finished game starts over,
    a click above the board is ignored, a click on an empty cell places the
    current mark there and passes the turn, a click on a taken cell does nothing.
    Only a click that reaches the cell lookup needs a cell index below 9.
   */
  function Step(s: Snapshot, p: Pointer): (r: Snapshot)
    requires WellSized(s.cells)
    requires p.OnBoard? && !Over(s.cells) ==> p.Index() < 9
    ensures WellSized(r.cells)
  {
    if Over(s.cells) then Initial()
    else if p.AboveBoard? then s
    else if s.cells[p.Index()].None? then
      Snapshot(s.cells[p.Index() := Some(s.current)], s.current.Switch())
    else s
  }

  /** A click on a finished game resets it and places no mark, wherever it lands. */
  lemma OutcomeClickResets(s: Snapshot, p: Pointer)
    requires WellSized(s.cells) && Over(s.cells)
    ensures Step(s, p) == Initial()
    ensures Marks(Step(s, p).cells) == 0
  {
    CountEmpty(Empty(), X);
    CountEmpty(Empty(), O);
  }

  /**
    While the game is running, a click never removes or changes a placed mark;
    it adds exactly one mark, in the clicked cell, exactly when that cell was
    empty, and the turn changes exactly when a mark was added.
   */
  lemma {:induction false} StepInPlay(s: Snapshot, p: Pointer)
    requires WellSized(s.cells) && !Over(s.cells)
    requires p.OnBoard? ==> p.Index() < 9
    ensures var r := Step(s, p);
            var placed := p.OnBoard? && s.cells[p.Index()].None?;
            && (forall j :: 0 <= j < 9 && s.cells[j].Some? ==> r.cells[j] == s.cells[j])
            && Marks(r.cells) == Marks(s.cells) + (if placed then 1 else 0)
            && (placed ==> r.cells[p.Index()] == Some(s.current))
            && (r.current != s.current <==> placed)
  ensures p.AboveBoard? ==> Step(s, p) == s
  {
    if p.OnBoard? && s.cells[p.Index()].None? {
      CountUpdate(s.cells, p.Index(), Some(s.current), X);
      CountUpdate(s.cells, p.Index(), Some(s.current), O);
    }
  }

  /** Clicking a taken cell of a running game changes nothing, however often it is repeated. */
  lemma OccupiedClickIsIdle(s: Snapshot, p: Pointer)
    requires WellSized(s.cells) && !Over(s.cells)
    requires p.OnBoard? && p.Index() < 9 && s.cells[p.Index()].Some?
    ensures Step(s, p) == s
    ensures Step(Step(s, p), p) == Step(s, p)
  {
  }

  /** Every click keeps the turn balanced with the marks on the board. */
  lemma {:induction false} StepKeepsBalance(s: Snapshot, p: Pointer)
    requires WellSized(s.cells)
    requires p.OnBoard? && !Over(s.cells) ==> p.Index() < 9
    requires Balanced(s)
    ensures Balanced(Step(s, p))
  {
    if Over(s.cells) {
      CountEmpty(Empty(), X);
      CountEmpty(Empty(), O);
    } else if p.OnBoard? && s.cells[p.Index()].None? {
      CountUpdate(s.cells, p.Index(), Some(s.current), X);
      CountUpdate(s.cells, p.Index(), Some(s.current), O);
    }
  }

  /** In a balanced game a full board always has O to move: X made the ninth move. */
  lemma {:induction false} FullBoardLeavesOToMove(s: Snapshot)
    requires WellSized(s.cells) && Balanced(s) && Full(s.cells)
    ensures s.current == O
    ensures Count(s.cells, X) == 5 && Count(s.cells, O) == 4
  {
    FullIffAllMarked(s.cells);
  }

  /** `GameState` together with the last recorded click. */
  class GameState {
    var cells: array<Option<CellState>>
    var current: CellState
    var lastClick: Option<Pointer>

    /** Nine cells, and the turn balanced with the marks on them. */
    ghost predicate Valid()
      reads this, cells
    {
      cells.Length == 9 && Balanced(State())
    }

    function State(): Snapshot
      reads this, cells
    {
      Snapshot(cells[..], current)
    }

    /** The process-wide initial values of `STATE` and `LAST_CLICK`. */
    constructor ()
      ensures Valid() && fresh(cells)
      ensures State() == Initial() && lastClick == None
    {
      cells := new Option<CellState>[9](_ => None);
      current := X;
      lastClick := None;
      new;
      assert cells[..] == Empty();
      CountEmpty(Empty(), X);
      CountEmpty(Empty(), O);
    }

    /** `GameState::reset`: empty every cell and give the turn to X, whatever came before. */
    method Reset()
      requires cells.Length == 9
      modifies this`current, cells
      ensures Valid() && State() == Initial()
    {
      forall i | 0 <= i < cells.Length {
        cells[i] := None;
      }
      current := X;
      assert cells[..] == Empty();
      CountEmpty(Empty(), X);
      CountEmpty(Empty(), O);
    }

    /** `GameState::get_winner`: scan the line table in order, stop at the first complete line. */
    method GetWinner() returns (w: Option<Win>)
      requires cells.Length == 9
      ensures w == Winner(cells[..])
    {
      var k := 0;
      while k < |Lines|
        invariant 0 <= k <= |Lines|
        invariant WinnerFrom(cells[..], k) == Winner(cells[..])
      {
        LinesInRange(k);
        var (a, b, c) := Lines[k];
        if cells[a].Some? {
          if cells[a] == cells[b] && cells[a] == cells[c] {
            return Some(Win(cells[a].value, a, c));
          }
        }
        k := k + 1;
      }
      return None;
    }

    /** `GameState::is_draw`: every cell holds a mark; a board with a winner may satisfy it too. */
    function IsDraw(): (r: bool)
      reads this, cells
      ensures r <==> Marks(cells[..]) == cells.Length
    {
      FullIffAllMarked(cells[..]);
      Full(cells[..])
    }

    /**
      `handle_click`, once the click is resolved to a `Pointer`: record it,
      then make the transition `Step`.
     */
    method HandleClick(p: Pointer)
      requires Valid()
      requires p.OnBoard? && !Over(cells[..]) ==> p.Index() < 9
      modifies this, cells
      ensures Valid() && cells == old(cells)
      ensures lastClick == Some(p)
      ensures State() == Step(old(State()), p)
    {
      lastClick := Some(p);
      StepKeepsBalance(State(), p);
      var w := GetWinner();
      if w.Some? || IsDraw() {
        Reset();
        return;
      }
      if p.AboveBoard? {
        return;
      }
      var i := p.row * 3 + p.col;
      if cells[i].None? {
        cells[i] := Some(current);
        current := current.Switch();
      }
    }
  }

  /** The boards of the diagonal game below, after one to five clicks. */
  function DiagonalBoard(n: nat): (b: Cells)
    requires 1 <= n <= 5
    ensures WellSized(b)
  {
    var e := None;
    [Some(X), if n >= 2 then Some(O) else e, if n >= 4 then Some(O) else e,
     e, if n >= 3 then Some(X) else e, e,
     e, e, if n == 5 then Some(X) else e]
  }

  /** The mark to move after `n` clicks of the diagonal game: O after X's clicks 1, 3 and 5. */
  function DiagonalTurn(n: nat): CellState
  {
    if n == 1 || n == 3 || n == 5 then O else X
  }

  /** The clicks of the diagonal game: cells 0, 1, 4, 2, 8. */
  function DiagonalMove(n: nat): (p: Pointer)
    requires 1 <= n <= 5
    ensures p.OnBoard? && p.Index() < 9
  {
    [OnBoard(0, 0), OnBoard(0, 1), OnBoard(1, 1), OnBoard(0, 2), OnBoard(2, 2)][n - 1]
  }

  /**
    Each of the first four boards is still running, and the next click turns it
    into the next board.
   */
  lemma DiagonalGameStep(n: nat)
    requires 1 <= n <= 4
    ensures !Over(DiagonalBoard(n))
    ensures Step(Snapshot(DiagonalBoard(n), DiagonalTurn(n)), DiagonalMove(n + 1))
            == Snapshot(DiagonalBoard(n + 1), DiagonalTurn(n + 1))
  {
    assert DiagonalBoard(n)[3].None?;
    var i := DiagonalMove(n + 1).Index();
    assert DiagonalBoard(n)[i := Some(DiagonalTurn(n))] == DiagonalBoard(n + 1);
  }

  /** The fifth board is won by X on the diagonal (0, 4, 8), the first complete line. */
  lemma DiagonalGameWon()
    ensures Winner(DiagonalBoard(5)) == Some(Win(X, 0, 8))
  {
  }

  /** The diagonal game opens on a running board, and X's first click makes the first board. */
  lemma DiagonalGameOpens()
    ensures !Over(Initial().cells)
    ensures Step(Initial(), OnBoard(0, 0)) == Snapshot(DiagonalBoard(1), O)
  {
    EmptyHasNoWinner();
    assert Initial().cells[0 := Some(X)] == DiagonalBoard(1);
  }

  /** Clicks `n + 1` to 5 of the diagonal game, made through `HandleClick` from board `n`. */
  method PlayDiagonalFrom(g: GameState, n: nat)
    requires 1 <= n <= 5 && g.Valid()
    requires g.State() == Snapshot(DiagonalBoard(n), DiagonalTurn(n))
    modifies g, g.cells
    ensures g.Valid() && g.cells == old(g.cells)
    ensures g.State() == Snapshot(DiagonalBoard(5), O)
    decreases 5 - n
  {
    if n < 5 {
      DiagonalGameStep(n);
      g.HandleClick(DiagonalMove(n + 1));
      PlayDiagonalFrom(g, n + 1);
    }
  }

  /**
    X takes the main diagonal while O plays the top row's right two cells: the
    diagonal (0, 4, 8) is reported.
   */
  method DiagonalWin() returns (w: Option<Win>)
    ensures w == Some(Win(X, 0, 8))
  {
    var g := new GameState();
    DiagonalGameOpens();
    g.HandleClick(OnBoard(0, 0));
    assert g.State() == Step(Initial(), OnBoard(0, 0));
    PlayDiagonalFrom(g, 1);
    DiagonalGameWon();
    w := g.GetWinner();
  }
}
