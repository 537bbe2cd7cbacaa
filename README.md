# XO-Game: the tic-tac-toe state machine

This project models the game logic of the XO-Game repository, which holds the same state machine twice.

- `XOGame` (game/XOGame.js) is an object with:
  - a nine-cell board in row-major order;
  - the player to move, with `'X'` first;
  - a `gameOver` flag;
  - a `winner`, which is `null`, `'X'`, `'O'` or `'draw'`.
- The browser client (public/script.js) keeps the same four values in module-level variables. It adds an append-only move log `moves` and a start time `gameStartTime`.

Both copies treat a move the same way:
- A move is rejected when the game is over or the target cell is not `''`.
- Otherwise the mover's mark is written.
- A win is tested first, then a full board.
- The player to move changes only when the game goes on.

The Dafny model has four modules:

- `Rules` (rules.dfy) holds what both copies share:
  - the cell and winner values;
  - the eight winning triples, and the source's win and full-board tests;
  - a geometric reference definition of "three in a row" on the 3×3 grid;
  - mark counting;
  - the pure transition `Play`, which is one call of `makeMove` or one accepted click;
  - the invariant `Consistent` that every reachable state satisfies.
- `Engine` (engine.dfy) is `XOGame` as a class. Its board is an `array<Cell>` written in place. `MakeMove` is proved against `Play`, the constructor and `Reset` against `Initial()`, and each keeps `Consistent`.
- `Browser` (browser.dfy) is the browser client's game state as a class with the same fields plus `moves` and `gameStartTime`:
  - Its invariant also ties the log to the board. There is one record per marked cell, each record's cell holds its mark, no position is logged twice, and X and O alternate starting with X.
  - The click handler returns the arguments that the source passes to `saveGameResult`. It returns them on exactly the click that ends the game.
- `Scenarios` (scenarios.dfy) holds worked examples:
  - a diagonal win and a full-board draw, each played through `Play` from the initial state;
  - a last move that both completes a line and fills the board, played from a consistent eight-mark state, which is recorded as a win;
  - a repeated click on one cell, played through the browser client's `BrowserGame` class.

Cells are `Empty | X | O`. The string `''` becomes `Empty`. `winner` becomes `Undecided | WonBy(mark) | Drawn`, where `null` becomes `Undecided`. A position is any `int`. In the source a position outside 0..8 reads `undefined`, which is not `''`, so the move is rejected. The model rejects such a position explicitly.

## Model

| member | source | states |
|---|---|---|
| Rules.Other | game/XOGame.js:20 | the player who moves next is never the one who just moved |
| Rules.HasWinCases | game/XOGame.js:25-35 | `checkWin` holds exactly when one of the eight listed triples holds three equal non-empty marks |
| Rules.LinesAreGridLines | game/XOGame.js:26-30 | the eight triples are exactly the three rows, three columns and two diagonals of the 3×3 grid: a line is held by `m` iff `m` fills a row, a column or a diagonal |
| Rules.HasWinIffThreeInARow | game/XOGame.js:25-35 | the source's win test agrees with the grid definition: won iff X or O has three in a row |
| Rules.OnlyMoverCanWin | game/XOGame.js:11-15 | on a board without a winning line, writing `m` into an empty cell can only make a line for `m`, never for the other player |
| Rules.CountUpdate | game/XOGame.js:11 | writing one cell adds one to the count of the new value, takes one from the old value's count and leaves every other count unchanged |
| Rules.CountsPartition | game/XOGame.js:3 | every cell is '', 'X' or 'O': the three counts add up to the board size |
| Rules.FullIffNoEmpty | game/XOGame.js:38-40 | the board is full exactly when no cell is '' |
| Rules.FullIffMarksFillBoard | game/XOGame.js:38-40 | `checkDraw` holds exactly when the X and O marks together fill all cells |
| Rules.CountAbsent | game/XOGame.js:3 | a value that no cell holds has count zero |
| Rules.PlayEffect | game/XOGame.js:9-23 | a rejected move leaves the state unchanged. An accepted move writes the mover's mark at `pos` and nowhere else, and ends the game exactly when the board is won or full. A win records the mover even when the board is also full; a full board without a win is a draw. The turn passes only when the game goes on, and then the winner field is left as it was |
| Rules.PlaySameCellTwice | game/XOGame.js:10-11 | a second move on the same cell is rejected, so playing a cell twice equals playing it once |
| Rules.InitialIsConsistent | game/XOGame.js:2-7 | the initial state satisfies the game invariant |
| Rules.PlayKeepsConsistent | game/XOGame.js:9-23 | every move keeps the invariant. `gameOver` iff a winner is recorded. The X count equals the O count or is one more. While the game runs, X is to move iff the counts are equal, and there is no winning line and no full board. A win belongs to the last mover alone. A draw is a full board with no line |
| Rules.RunningGameHasMove | game/XOGame.js:16-21 | a game that is not over always has a cell a move can be played on |
| Rules.DrawnBoardCounts | game/XOGame.js:16-18 | a drawn game has five X marks and four O marks, and X made the last move |
| Rules.WonBoardCounts | game/XOGame.js:13-15 | X has won iff X has one mark more than O. O has won iff the counts are equal |
| Engine.XOGame.constructor | game/XOGame.js:2-7 | a new game has nine empty cells, X to move, is not over and has no winner; the invariant holds |
| Engine.XOGame.CheckWin | game/XOGame.js:25-36 | true iff X or O has three in a row on the current board |
| Engine.XOGame.CheckDraw | game/XOGame.js:38-40 | true iff the X and O marks fill all nine cells |
| Engine.XOGame.MakeMove | game/XOGame.js:9-23 | returns true iff the game is running and `pos` is an empty cell in 0..8. The new state is exactly `Play` of the old one at `pos`. The board array is the same object, and the invariant is kept |
| Engine.XOGame.Reset | game/XOGame.js:42-47 | the state is exactly the constructor's, on a fresh board array |
| Browser.MoverOfCounts | public/script.js:93-98 | when X is never behind O, the mover of the next log entry is X iff the counts are equal |
| Browser.RecordsAppend | public/script.js:93-98 | a record for a newly marked empty cell keeps every logged cell holding its mark and keeps positions distinct |
| Browser.LogAppend | public/script.js:93-98 | appending the mover's record after writing an empty cell keeps the log in step with the board: one record per mark, distinct positions, X and O alternating from X |
| Browser.EmptyLogMatches | public/script.js:19-25 | the empty log matches the empty board |
| Browser.BrowserGame.constructor | public/script.js:11-16 | at script load the state is the initial one, the log is empty and the clock starts at `now` |
| Browser.BrowserGame.InitGame | public/script.js:19-30 | empty board, X to move, not over, no winner, empty log, start time `now`; the invariant and log agreement hold |
| Browser.BrowserGame.ResetGame | public/script.js:122-125 | the same state as `initGame`, with an empty log |
| Browser.BrowserGame.CheckWinner | public/script.js:70-81 | true iff X or O has three in a row on the current board |
| Browser.BrowserGame.HandleCellClick | public/script.js:88-115 | a click on a finished game or on a cell that is not '' changes nothing and reports nothing. Otherwise the state is `Play` of the old one, and exactly one record (old player, index, `now`) is appended to the log, with earlier records unchanged. The finished-game record (winner, log, board, `now - gameStartTime`) is returned iff this click ends the game. The invariant and log agreement are kept |
| Scenarios.Continues | game/XOGame.js:19-21 | an accepted move that neither wins nor fills the board passes the turn and leaves the game running, with the winner field as it was |
| Scenarios.FullByCells | game/XOGame.js:38-40 | a board with all nine cells marked is full |
| Scenarios.DiagonalWin | game/XOGame.js:9-23 | X@0, O@1, X@4, O@2, X@8: undecided after four moves; the fifth wins for X on the diagonal 0-4-8 with board X O O / _ X _ / _ _ X |
| Scenarios.DrawTopRow | game/XOGame.js:9-23 | X@0, O@1, X@2 from the start fill the top row as X O X, with O to move and the game running |
| Scenarios.DrawOpening | game/XOGame.js:9-23 | X@0, O@1, X@2, O@4, X@3 from the start leave X O X / X O _ / _ _ _ with O to move |
| Scenarios.DrawMiddle | game/XOGame.js:9-23 | then O@5, X@7, O@6 leave X O X / X O O / O X _ with X to move and no line |
| Scenarios.DrawFinal | game/XOGame.js:16-18 | X@8 then fills the board without a line: the game is a draw |
| Scenarios.FullBoardDraw | game/XOGame.js:9-23 | the nine moves together fill the board as X O X / X O O / O X X; the game is undecided after eight moves and drawn after the ninth |
| Scenarios.LastCellStartConsistent | game/XOGame.js:9-23 | the eight-mark state X O X / O X O / O X _ with X to move, not over and without a winner satisfies the game invariant |
| Scenarios.WinOnLastCell | game/XOGame.js:13-19 | the start state X O X / O X O / O X _ with X to move is consistent, and X@8 there, which both completes a line and fills the board, is recorded as a win, not a draw |
| Scenarios.CentreOpening | game/XOGame.js:9-23 | X@4 on the empty board puts X in the centre, with O to move |
| Scenarios.RepeatedClick | public/script.js:88-98 | two clicks on the same cell of a fresh browser game log one move and report no result |

## Left out

- Rendering and event wiring in public/script.js are not modelled: `updateBoard`, `updateStatus`, `showGameOver`, `hideGameOver`, the result and recent-games displays, and the listeners. They only touch the page.
- `saveGameResult` and `loadGameStats` in public/script.js are asynchronous HTTP I/O. `HandleCellClick` returns the summary that would be sent, and sends nothing.
- The URL-parameter code in public/script.js reads `window.location.search` and never uses the result, so it has no effect on the game state.
- `Date.now()` is a parameter `now` of the constructor, `InitGame`, `ResetGame` and `HandleCellClick`.
  - Browser.BrowserGame.HandleCellClick: the source reads the clock twice in a winning or drawing click, once for the move's timestamp and once for the duration. The model uses one `now` for both.
- server.js (HTTP routes, database queries, floating-point win rates) is not part of this model.
- models/Game.js (a declarative database schema) is not part of this model.
- `parseInt` of the cell's data attribute is not modelled; the index is an integer parameter. A `NaN` index, which the source would also reject because `board[NaN]` is `undefined`, cannot be expressed.
- Browser.BrowserGame.HandleCellClick: the summary holds copies of the log and board. In the source, `saveGameResult` receives the live `moves` and `board` arrays, which a later `resetGame` replaces but never mutates. Aliasing is not modelled.
- The source's winner strings and the `null` winner are the datatype `Winner`. The string encodings are not modelled.
