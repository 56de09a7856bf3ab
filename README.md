# Tic-tac-toe game state

This project is a Dafny model of the game logic in a small tic-tac-toe app
(`src/App.js`), with proofs about it. It covers:

- win detection (`calculateWinner`);
- how a click on the board is checked and turned into a new board snapshot
  (`Board.handleClick`);
- the status line above the board;
- the `Game` state. That state is a history of board snapshots and a
  `currentMove` pointer, changed by `handlePlay` and `jumpTo`.

Modules, leaf first:

- `Marks` (marks.dfy): the data model. A square is `Empty`, `X` or `O`; a
  board (`Squares`) is a sequence of exactly nine squares, row-major; `Mark`
  gives the mark of the player to move.
- `WinDetector` (winner.dfy): the eight lines in the source's order, the
  specification function `Winner` and the method `CalculateWinner`, which
  keeps the source's loop with its early return. The lemmas relate
  `Winner` to an independent definition: "mark `m` owns line `k`".
- `Board` (board.dfy): `HandleClick` builds the next snapshot in a fresh
  array copied from the board (the source's `slice()`) and returns
  `None` when the click is ignored; `Status` is the status line.
- `GameHistory` (game.dfy): class `Game`, whose fields `history` and
  `currentMove` are updated together by `HandlePlay`, `JumpTo` and `Play`.
  `Play` is the source's click path: `handleClick` with the game's
  `xIsNext` and current board, and `handlePlay` as `onPlay`.
  - `Valid()` is the structural invariant: the pointer is inside the
    history, and `history[0]` is the empty board.
  - `WellPlayed()` says every snapshot follows the one before it by a legal
    move. A legal move is made on a board with no winner and fills one empty
    square with the mark of that ply: X on even plies, O on odd ones.
  - From `WellPlayed()` the lemmas derive the mark counts of every snapshot
    and the bound of ten snapshots.
  - `ColumnGame` is a verified client scenario: X wins down the left column, a later click
    is ignored, then the game jumps back to the start, a new move
    truncates the history, and a second click on the same square adds
    nothing.

Board snapshots are values (`seq<Cell>`). A snapshot stored in the history
therefore cannot be changed by a later click. The source gets the same
guarantee by copying the array before writing.

## Model

| member | source | states |
|---|---|---|
| `Marks.Mark` | src/App.js:27-31 | the mark written by the player to move is never `Empty`, and it is X exactly when `xIsNext` (also the mark named on the status line, src/App.js:43) |
| `WinDetector.Completed` | src/App.js:138 | the source's test on line `k`, as a definition: its first square is non-empty and the other two equal it; `WinDetector.WinnerFromIsFirstOwned` relates it to ownership of the line |
| `WinDetector.Winner` | src/App.js:122-144 | the value of `calculateWinner`, the scan from the first line: a reported mark is never `Empty`; which mark it is, and when it is null, is stated by `WinDetector.WinnerIsFirstOwnedLine` |
| `WinDetector.CalculateWinner` | src/App.js:122-144 | the loop over the eight lines, with its early return, yields exactly `Winner(squares)` |
| `WinDetector.WinnerFrom` | src/App.js:135-143 | a mark reported by the scan is never `Empty` |
| `WinDetector.WinnerFromIsFirstOwned` | src/App.js:135-143 | a scan starting at line `k` finds nothing exactly when no line from `k` on is owned; it finds `m` exactly when the first owned line from `k` on is owned by `m` |
| `WinDetector.WinnerIsFirstOwnedLine` | src/App.js:124-143 | null exactly when no owner line exists (a full board without a line included); otherwise the mark of the first owned line in the order rows, columns, diagonals |
| `WinDetector.UncontestedLineWins` | src/App.js:124-143 | a mark that owns a line wins whenever no other mark owns a line |
| `Board.HandleClick` | src/App.js:20-34 | ignored exactly when the board has a winner or square `i` is occupied; otherwise the new board has the mover's mark at `i` (X when `xIsNext`, O otherwise) and equals the old board elsewhere |
| `Board.Status` | src/App.js:36-44 | "Winner: " and the mark when there is a winner, otherwise "Next player: " and the mark of the player to move |
| `Board.StatusDeterminesOutcome` | src/App.js:36-44 | equal status lines mean the same winner, and, while there is none, the same player to move |
| `GameHistory.PlyCounts` | src/App.js:22-31 | snapshot `k` of a reachable history has `(k+1)/2` X, `k/2` O and `9-k` empty squares |
| `GameHistory.ReachableBounded` | src/App.js:80-86 | a reachable history never holds more than ten snapshots |
| `GameHistory.TurnAgreesWithCounts` | src/App.js:75 | parity of the ply agrees with the board: even exactly when X and O have been placed equally often |
| `GameHistory.Game.XIsNext` | src/App.js:75 | `currentMove % 2 === 0`: the mark to be placed is the mark of ply `currentMove`, X on even plies and O on odd ones |
| `GameHistory.Game.CurrentSquares` | src/App.js:77 | `history[currentMove]`: always one of the stored snapshots, and the empty board at move 0 |
| `GameHistory.Game.constructor` | src/App.js:72-73 | the history is one empty board and the pointer is 0 |
| `GameHistory.Game.HandlePlay` | src/App.js:80-86 | the history becomes `history[..currentMove+1]` plus the new board; its length is `currentMove+2`; the pointer is the last index; earlier snapshots are unchanged; a legal move keeps the history well played |
| `GameHistory.Game.JumpTo` | src/App.js:89-91 | only the pointer moves, to `nextMove`; the current board is `history[nextMove]`; X moves exactly when `nextMove` is even |
| `GameHistory.Game.Play` | src/App.js:20-34 | with a winner or an occupied square nothing changes; otherwise the history is truncated after the pointer and extended by the current board with the mover's mark at `i`, and the pointer advances by one; the invariants are kept |
| `GameHistory.Game.TurnMatchesBoard` | src/App.js:75-77 | on a well-played game, X is to move exactly when the current board holds as many X as O |

## Left out

- Rendering of squares, board rows and the move list (src/App.js:6-14, 47-66, 101-118): presentation only.
- React's `useState` and re-rendering (src/App.js:2, 72-73): the two state fields are plain fields of `Game`, assigned together in each method.
- The move-list labels "Go to move #N" and "Go to game start" (src/App.js:95-100): display strings, not game state.
- Out-of-range square and move indices: the source never checks them, and the model adds no rejection path for them. They are preconditions here: `Index` is `0..8` and `JumpTo` requires `nextMove < |history|`.
- JavaScript truthiness of `null`, `'X'` and `'O'` (src/App.js:22, 40, 138): for squares (lines 22 and 138) it is modelled by the `Cell` datatype, where `Empty` is the only falsy value; for the winner (line 40) the missing winner `null` is `None` of `Option<Cell>`.
