# Tic-tac-toe game state, in Dafny

This project models the game logic of a WebAssembly tic-tac-toe game whose
Rust core (`src/lib.rs`) keeps a 3x3 board and the player to move. A click on
a finished game starts a new one. A click above the board is ignored. A click
on an empty cell places the current player's mark there and passes the turn.
A click on a taken cell does nothing. The model also covers the small colour
type the renderer uses to pack r, g, b, a bytes into a 64-bit word.

Modules:

- `Wrappers` (`wrappers.dfy`): the `Option` type used for cells and the winner report.
- `Colour` (`colour.dfy`): `Color(u64)` as a `bv64` word. It covers the two
  `From` packings, `From<u64>` and `to_bytes`, with the round trip in both
  directions. Dafny's `|` binds tighter than `<<`, so every shift is
  parenthesised to keep Rust's grouping.
- `Board` (`board.dfy`): the board as a value of nine `Option<CellState>`
  cells in row-major order. It holds the eight-line table in scan order,
  `get_winner` as a recursive scan `WinnerFrom`, `is_draw` as `Full`, and
  mark counts.
- `Game` (`game.dfy`): the transition a click makes (`Step`) on a
  `Snapshot` of cells and turn. It also holds the class `GameState`, with the
  cells in a nine-element array, the `current` mark and `lastClick` updated in
  place. `Reset`, `GetWinner` (a loop over the line table with early return)
  and `HandleClick` are methods, and `IsDraw` is a function. Each is proved
  against the value-level definitions. `GameState.Valid()` carries the turn
  invariant: X has as many marks as O when X is to move, and one more when O
  is to move.

The host's click coordinates are floating-point pixels. The source turns
them into a cell index by dividing by the board size and truncating. The
model takes the click already resolved into a `Pointer`: either `AboveBoard`,
or `OnBoard(row, col)` for cell `row * 3 + col`. The source panics when that
index exceeds 8. `HandleClick` therefore requires the index to be below 9,
but only when the click reaches the cell lookup, that is, when the game is
still running and the click is on the board.

`is_draw` only asks whether every cell is filled. It does not exclude a
winning board; callers ask `get_winner` first. The model follows the code
here. `Over` is "winner or full", and `FullBoardMayHaveWinner` exhibits a
full board that also has a winner. Rendering is not modelled, including the
wording of the end-of-game dialog. The renderer does pass the mark colours in
two spellings, as packed `u64` literals for the turn indicator and as byte
triples for the marks; `PackedLiteralsAreOpaque` and `MarkColorsDiffer` check
that these agree with `CellState::get_color`. The grid's literal 0x00000040 is
black at alpha 64 (`GridColourIsTranslucent`).

## Model

| member | source | states |
|---|---|---|
| `Colour.FromRgba` | src/lib.rs:252-256 | packing four bytes never sets a bit above bit 31 |
| `Colour.FromRgb` | src/lib.rs:246-250 | the three-byte packing always has alpha byte 0xFF |
| `Colour.RgbaRoundTrip` | src/lib.rs:231-256 | `to_bytes` of the colour packed from (r, g, b, a) is (r, g, b, a) |
| `Colour.RgbIsOpaque` | src/lib.rs:246-250 | the three-byte colour equals the four-byte colour with alpha 255 and unpacks to (r, g, b, 255) |
| `Colour.RepackKeepsLowWord` | src/lib.rs:231-237 | repacking the bytes of any word yields its low 32 bits, so unpack-then-pack is the identity exactly on words below 2^32 |
| `Colour.FromPacked` | src/lib.rs:258-262 | (no contract) the colour holds the given 64-bit word unchanged |
| `Colour.ToBytes` | src/lib.rs:231-237 | (no contract) bytes 3, 2, 1 and 0 of the word, from the most significant down, as (r, g, b, a); the properties are stated by `RgbaRoundTrip`, `RgbIsOpaque` and `RepackKeepsLowWord` |
| `Colour.PackedLiteralsAreOpaque` | src/lib.rs:413-439 | the turn indicator's packed literals 0x000000ff (X) and 0xff0000ff (O) are the same colours as the byte triples (0,0,0) and (255,0,0) used for the marks, so the indicator and the board agree on each player's colour |
| `Colour.GridColourIsTranslucent` | src/lib.rs:514-516 | the grid's packed literal 0x00000040 unpacks to black with alpha 64 |
| `Board.CellState.Switch` | src/lib.rs:271-276 | switching yields the other mark |
| `Board.SwitchTwice` | src/lib.rs:271-276 | switching twice restores the original mark |
| `Board.CellState.GetColor` | src/lib.rs:278-283 | each mark's colour is opaque |
| `Board.MarkColorsDiffer` | src/lib.rs:413-439 | X and O get different colours, equal to the packed literals the renderer uses for each turn indicator |
| `Board.LinesInRange` | src/lib.rs:298-307 | every entry of the line table names three distinct cells below 9 |
| `Board.Complete` | src/lib.rs:308-309 | (no contract) line k's first cell holds a mark and its other two cells hold the same value |
| `Board.WinOf` | src/lib.rs:308-311 | the report of a complete line names cells below 9 that both hold the reported mark |
| `Board.WinnerFrom` | src/lib.rs:297-314 | (no contract) the scan of the line table from line k: the report of line k if it is complete, otherwise the scan from k + 1, and None past the last line; `WinnerFromIsFirstComplete` states its meaning |
| `Board.Winner` | src/lib.rs:297-314 | (no contract) the value-level `get_winner`: the scan from line 0; `WinnerIsFirstComplete` states its meaning |
| `Board.WinnerFromIsFirstComplete` | src/lib.rs:297-314 | the scan from line k reports nothing iff no line from k on is complete, and otherwise the first complete line from k on, as (mark, first cell, third cell) |
| `Board.WinnerIsFirstComplete` | src/lib.rs:297-314 | `get_winner` is None iff none of the 8 lines is complete; when line k is the first complete line in table order (rows, columns, diagonals), it returns that line's mark with its first and third cells |
| `Board.EmptyLineNeverCounts` | src/lib.rs:308-309 | on every board, a line whose first cell is empty is not complete, whatever its other two cells hold |
| `Board.EmptyHasNoWinner` | src/lib.rs:308-312 | the empty board has no winner |
| `Board.Full` | src/lib.rs:317-319 | (no contract) the value-level `is_draw`: every cell holds a mark; `FullIffAllMarked` ties it to the mark counts |
| `Board.FullIffAllMarked` | src/lib.rs:317-319 | the board is full iff the X count plus the O count equals the number of cells, and that sum never exceeds it |
| `Board.FullBoardMayHaveWinner` | src/lib.rs:317-319 | a full board can also have a winner, so `is_draw` alone does not mean a draw |
| `Board.CountUpdate` | src/lib.rs:364-366 | writing a value into one cell changes a mark's count by what arrives minus what leaves |
| `Game.Pointer.Index` | src/lib.rs:361 | (no contract) the cell a board click selects, row * 3 + column |
| `Game.Initial` | src/lib.rs:322-325 | (no contract) the state at start-up and after a reset: all nine cells empty, X to move |
| `Game.Over` | src/lib.rs:352 | (no contract) the test that makes a click reset: a winner exists or every cell is filled |
| `Game.Step` | src/lib.rs:352-367 | a click's transition always leaves nine cells |
| `Game.OutcomeClickResets` | src/lib.rs:352-355 | once there is a winner or the board is full, any click resets to the empty board with X to move and places no mark |
| `Game.StepInPlay` | src/lib.rs:356-367 | in a running game a click never changes a placed mark; it adds exactly one mark (the current player's, in the clicked cell) exactly when the cell was empty; the turn changes exactly when a mark was added; a click above the board leaves cells and turn as they were |
| `Game.OccupiedClickIsIdle` | src/lib.rs:362-367 | clicking a taken cell of a running game changes neither cells nor turn, and repeating it changes nothing either |
| `Game.StepKeepsBalance` | src/lib.rs:352-367 | every click, including one that resets through `reset` (src/lib.rs:292-295), keeps the X count equal to the O count when X is to move and one more when O is |
| `Game.FullBoardLeavesOToMove` | src/lib.rs:364-367 | under the turn invariant a full board has 5 X, 4 O and O to move |
| `Game.GameState.constructor` | src/lib.rs:322-347 | the initial state is nine empty cells, X to move, no click recorded, and satisfies the invariant |
| `Game.GameState.Reset` | src/lib.rs:292-295 | whatever the prior cells and turn, all nine cells become empty and X is to move; the recorded click is untouched |
| `Game.GameState.GetWinner` | src/lib.rs:297-314 | the loop over the line table returns exactly the first-complete-line report `Winner` of the current cells |
| `Game.GameState.IsDraw` | src/lib.rs:317-319 | true iff the marks on the board number 9, one per cell |
| `Game.GameState.HandleClick` | src/lib.rs:350-368 | records the click, keeps the cells array and the turn invariant, and moves cells and turn by `Step` |
| `Game.DiagonalGameOpens` | src/lib.rs:352-367 | the fresh game is running, and X's click on cell 0 makes the game's first board with O to move |
| `Game.DiagonalGameStep` | src/lib.rs:352-367 | in the game X 0, O 1, X 4, O 2, X 8, no board before the last is finished and each click makes the next board |
| `Game.DiagonalGameWon` | src/lib.rs:297-314 | the last board of that game is won by X on line (0, 4, 8) |
| `Game.PlayDiagonalFrom` | src/lib.rs:350-368 | playing the remaining clicks of that game through `HandleClick` from board n reaches the fifth board with O to move, keeping the cells array and the invariant |
| `Game.DiagonalWin` | src/lib.rs:350-368 | playing that game through `HandleClick` from a fresh state makes `GetWinner` report X on cells 0 and 8 |

## Left out

- Rendering: the `drawing` module, `draw`, `draw_grid`, `draw_current_player`, `draw_message_dialog`, `draw_winner_line` and the cell-geometry helpers. They only issue canvas calls with floating-point geometry.
- `set_size`, `scale` and the rescaling of the last click on resize. These are floating-point arithmetic on the viewport size, and the unguarded division when the old size is zero is not modelled.
- `Game.GameState.HandleClick`: does not model turning the f64 click coordinates into a cell (division by the board size, truncating casts). The click arrives as a resolved `Pointer`, and `lastClick` records that `Pointer` rather than the raw (x, y). The cell index `row * 3 + col` is an unbounded integer here, whereas the source computes it in `usize` from saturating casts; that fixed-width arithmetic is not modelled.
- The out-of-range panic at the cell lookup is a precondition of `HandleClick`, not a modelled failure. The panic handler, its location report and the `static_variable!` global-pointer macro are host diagnostics and unsafe plumbing.
- `init` and the JavaScript host page (`index.js`): host I/O and event wiring with no game logic.
