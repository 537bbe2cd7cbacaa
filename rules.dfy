/**
  The rules of tic-tac-toe shared by both copies of the game engine
  (game/XOGame.js and public/script.js): the board, the eight winning
  lines, the win and full-board tests, the decision taken after a mark is
  written, and the invariant every reachable game state satisfies.
 */
module Rules {

  /** A board cell: the empty string '' or one of the marks 'X' and 'O'. */
  datatype Cell = Empty | X | O

  /** A player's mark: a cell value other than Empty. */
  type Mark = c: Cell | c != Empty witness X

  /** The `winner` field: null while the game runs, then 'X', 'O' or 'draw'. */
  datatype Winner = Undecided | WonBy(mark: Mark) | Drawn

  /** Number of cells; positions are 0..8 in row-major order. */
  const Size: nat := 9

  type Index = i: int | 0 <= i < Size

  /** The eight index triples checked for three in a row: rows, columns, diagonals. */
  const Lines: seq<(Index, Index, Index)> :=
    [(0, 1, 2), (3, 4, 5), (6, 7, 8),
     (0, 3, 6), (1, 4, 7), (2, 5, 8),
     (0, 4, 8), (2, 4, 6)]

  /** The board both engines start from: nine empty cells. */
  const EmptyBoard: seq<Cell> := [Empty, Empty, Empty, Empty, Empty, Empty, Empty, Empty, Empty]

  /** The player who moves after `m` when the game goes on. */
  function Other(m: Mark): (r: Mark)
    ensures r != m
  {
    if m == X then O else X
  }

  // ---------------------------------------------------------------------
  // Win and draw tests as the source writes them
  // ---------------------------------------------------------------------

  /** Line `t` holds three equal marks (the first cell truthy, the other two equal to it). */
  predicate Held(b: seq<Cell>, t: (Index, Index, Index))
    requires |b| == Size
  {
    b[t.0] != Empty && b[t.0] == b[t.1] && b[t.0] == b[t.2]
  }

  /** `checkWin` / `checkWinner`: some of the eight lines is held. */
  predicate HasWin(b: seq<Cell>)
    requires |b| == Size
  {
    exists i :: 0 <= i < |Lines| && Held(b, Lines[i])
  }

  /** The eight cases of `HasWin` written out, for deciding it on a given board. */
  lemma HasWinCases(b: seq<Cell>)
    requires |b| == Size
    ensures HasWin(b) <==>
      || Held(b, (0, 1, 2)) || Held(b, (3, 4, 5)) || Held(b, (6, 7, 8))
      || Held(b, (0, 3, 6)) || Held(b, (1, 4, 7)) || Held(b, (2, 5, 8))
      || Held(b, (0, 4, 8)) || Held(b, (2, 4, 6))
  {
    assert Held(b, Lines[0]) == Held(b, (0, 1, 2));
    assert Held(b, Lines[1]) == Held(b, (3, 4, 5));
    assert Held(b, Lines[2]) == Held(b, (6, 7, 8));
    assert Held(b, Lines[3]) == Held(b, (0, 3, 6));
    assert Held(b, Lines[4]) == Held(b, (1, 4, 7));
    assert Held(b, Lines[5]) == Held(b, (2, 5, 8));
    assert Held(b, Lines[6]) == Held(b, (0, 4, 8));
    assert Held(b, Lines[7]) == Held(b, (2, 4, 6));
    if HasWin(b) {
      var i :| 0 <= i < |Lines| && Held(b, Lines[i]);
      assert i in {0, 1, 2, 3, 4, 5, 6, 7};
    }
  }

  /** `checkDraw` / `board.every(cell => cell !== '')`: no cell is empty. */
  predicate IsFull(b: seq<Cell>)
  {
    forall i :: 0 <= i < |b| ==> b[i] != Empty
  }

  // ---------------------------------------------------------------------
  // An independent, geometric reading of "three in a row"
  // ---------------------------------------------------------------------

  /** The cell in row `r`, column `c` of the 3x3 grid. */
  function At(b: seq<Cell>, r: int, c: int): Cell
    requires |b| == Size && 0 <= r < 3 && 0 <= c < 3
  {
    b[3 * r + c]
  }

  predicate RowFull(b: seq<Cell>, r: int, m: Mark)
    requires |b| == Size && 0 <= r < 3
  {
    At(b, r, 0) == m && At(b, r, 1) == m && At(b, r, 2) == m
  }

  predicate ColumnFull(b: seq<Cell>, c: int, m: Mark)
    requires |b| == Size && 0 <= c < 3
  {
    At(b, 0, c) == m && At(b, 1, c) == m && At(b, 2, c) == m
  }

  /** Player `m` owns a whole row, a whole column or one of the two diagonals. */
  predicate ThreeInARow(b: seq<Cell>, m: Mark)
    requires |b| == Size
  {
    || (exists r :: 0 <= r < 3 && RowFull(b, r, m))
    || (exists c :: 0 <= c < 3 && ColumnFull(b, c, m))
    || (At(b, 0, 0) == m && At(b, 1, 1) == m && At(b, 2, 2) == m)
    || (At(b, 0, 2) == m && At(b, 1, 1) == m && At(b, 2, 0) == m)
  }

  /** The eight fixed triples are exactly the rows, columns and diagonals of the grid. */
  lemma LinesAreGridLines(b: seq<Cell>, m: Mark)
    requires |b| == Size
    ensures ThreeInARow(b, m) <==> exists i :: 0 <= i < |Lines| && Held(b, Lines[i]) && b[Lines[i].0] == m
  {
    if ThreeInARow(b, m) {
      var i: int;
      if r :| 0 <= r < 3 && RowFull(b, r, m) {
        i := r;
      } else if c :| 0 <= c < 3 && ColumnFull(b, c, m) {
        i := 3 + c;
      } else if At(b, 0, 0) == m && At(b, 1, 1) == m && At(b, 2, 2) == m {
        i := 6;
      } else {
        i := 7;
      }
      assert Held(b, Lines[i]) && b[Lines[i].0] == m;
    }
    if i :| 0 <= i < |Lines| && Held(b, Lines[i]) && b[Lines[i].0] == m {
      if i < 3 {
        assert RowFull(b, i, m);
      } else if i < 6 {
        assert ColumnFull(b, i - 3, m);
      }
    }
  }

  /** `checkWin` holds exactly when one of the players has three in a row. */
  lemma HasWinIffThreeInARow(b: seq<Cell>)
    requires |b| == Size
    ensures HasWin(b) <==> ThreeInARow(b, X) || ThreeInARow(b, O)
  {
    LinesAreGridLines(b, X);
    LinesAreGridLines(b, O);
    if i :| 0 <= i < |Lines| && Held(b, Lines[i]) {
      assert b[Lines[i].0] == X || b[Lines[i].0] == O;
    }
  }

  /**
    On a board without a winning line, writing mark `m` into an empty cell can
    only complete lines of `m`: if the new board is won, `m` has three in a
    row and the other player has not.
   */
  lemma OnlyMoverCanWin(b: seq<Cell>, pos: Index, m: Mark)
    requires |b| == Size && !HasWin(b) && b[pos] == Empty
    ensures HasWin(b[pos := m]) ==> ThreeInARow(b[pos := m], m)
    ensures !ThreeInARow(b[pos := m], Other(m))
  {
    var b' := b[pos := m];
    // Every line held after the write passes through `pos`, so it is held by `m`.
    forall i | 0 <= i < |Lines| && Held(b', Lines[i])
      ensures b'[Lines[i].0] == m
    {
      var t := Lines[i];
      if pos != t.0 && pos != t.1 && pos != t.2 {
        assert false;
      }
    }
    LinesAreGridLines(b', m);
    LinesAreGridLines(b', Other(m));
  }

  // ---------------------------------------------------------------------
  // Counting marks
  // ---------------------------------------------------------------------

  /** Number of cells of `b` holding `c`. */
  function Count(b: seq<Cell>, c: Cell): (n: nat)
    ensures n <= |b|
  {
    if b == [] then 0 else (if b[0] == c then 1 else 0) + Count(b[1..], c)
  }

  /** Overwriting one cell moves one unit of count from the old value to the new one. */
  lemma {:induction false} CountUpdate(b: seq<Cell>, pos: int, v: Cell, c: Cell)
    requires 0 <= pos < |b|
    ensures Count(b[pos := v], c) == Count(b, c) - (if b[pos] == c then 1 else 0) + (if v == c then 1 else 0)
  {
    if pos == 0 {
      assert b[pos := v][1..] == b[1..];
    } else {
      assert b[pos := v][1..] == b[1..][pos - 1 := v];
      CountUpdate(b[1..], pos - 1, v, c);
    }
  }

  /** Every cell is Empty, X or O, so the three counts add up to the board size. */
  lemma {:induction false} CountsPartition(b: seq<Cell>)
    ensures Count(b, Empty) + Count(b, X) + Count(b, O) == |b|
  {
    if b != [] {
      CountsPartition(b[1..]);
    }
  }

  /** The board is full exactly when no cell counts as Empty. */
  lemma {:induction false} FullIffNoEmpty(b: seq<Cell>)
    ensures IsFull(b) <==> Count(b, Empty) == 0
  {
    if b != [] {
      FullIffNoEmpty(b[1..]);
      if IsFull(b) {
        assert IsFull(b[1..]) by {
          forall i | 0 <= i < |b[1..]| ensures b[1..][i] != Empty {
            assert b[1..][i] == b[i + 1];
          }
        }
      }
      if Count(b, Empty) == 0 {
        forall i | 0 <= i < |b| ensures b[i] != Empty {
          if i > 0 {
            assert b[i] == b[1..][i - 1];
          }
        }
      }
    }
  }

  /** `board.every(cell => cell !== '')` holds exactly when X and O marks fill all cells. */
  lemma FullIffMarksFillBoard(b: seq<Cell>)
    ensures IsFull(b) <==> Count(b, X) + Count(b, O) == |b|
  {
    FullIffNoEmpty(b);
    CountsPartition(b);
  }

  // ---------------------------------------------------------------------
  // The game state and the decision taken after a mark is written
  // ---------------------------------------------------------------------

  /** The four fields both engines keep: board, player to move, gameOver, winner. */
  datatype Status = Status(board: seq<Cell>, current: Mark, gameOver: bool, winner: Winner)

  /** The state the constructor, `reset`, `initGame` and `resetGame` establish. */
  function Initial(): Status
  {
    Status(EmptyBoard, X, false, Undecided)
  }

  /** A move at `pos` passes the guard: the game runs and the cell reads ''. */
  predicate CanPlay(s: Status, pos: int)
  {
    !s.gameOver && 0 <= pos < |s.board| && s.board[pos] == Empty
  }

  /**
    The state after `mover` has written its mark on a running game, giving
    board `b`: a win is tested first, then a full board; only when neither
    holds does the turn pass to the other player, with `gameOver` still false
    and the recorded `winner` left as it was.
   */
  function Settle(b: seq<Cell>, mover: Mark, winner: Winner): Status
    requires |b| == Size
  {
    if HasWin(b) then Status(b, mover, true, WonBy(mover))
    else if IsFull(b) then Status(b, mover, true, Drawn)
    else Status(b, Other(mover), false, winner)
  }

  /**
    One call of `makeMove(pos)` / one click on cell `pos`: a move the guard
    rejects leaves the state as it was; an accepted one writes the mover's
    mark and settles the game.
   */
  function Play(s: Status, pos: int): (r: Status)
    requires |s.board| == Size
    ensures |r.board| == Size
  {
    if CanPlay(s, pos) then Settle(s.board[pos := s.current], s.current, s.winner) else s
  }

  /**
    What one move does to the state: a rejected move changes nothing; an
    accepted one writes the mover's mark at `pos` and nowhere else, ends the
    game exactly when the board is then won or full, records the mover as
    winner on a win even if the board is also full, and hands the turn to the
    other player only when the game goes on.
   */
  lemma PlayEffect(s: Status, pos: int)
    requires |s.board| == Size
    ensures !CanPlay(s, pos) ==> Play(s, pos) == s
    ensures CanPlay(s, pos) ==>
      var r := Play(s, pos);
      && r.board[pos] == s.current
      && (forall i :: 0 <= i < Size && i != pos ==> r.board[i] == s.board[i])
      && (r.gameOver <==> HasWin(r.board) || IsFull(r.board))
      && (HasWin(r.board) ==> r.winner == WonBy(s.current))
      && (!HasWin(r.board) && IsFull(r.board) ==> r.winner == Drawn)
      && (r.current == if r.gameOver then s.current else Other(s.current))
      && (!r.gameOver ==> r.winner == s.winner)
  {
  }

  /** A second move on the same cell is rejected: playing a cell twice is playing it once. */
  lemma PlaySameCellTwice(s: Status, pos: int)
    requires |s.board| == Size
    ensures Play(Play(s, pos), pos) == Play(s, pos)
  {
  }

  /** X has as many marks as O, or one more. */
  predicate Balanced(b: seq<Cell>)
  {
    Count(b, X) == Count(b, O) || Count(b, X) == Count(b, O) + 1
  }

  /**
    The invariant of every state reachable from Initial():
    gameOver holds iff a winner is recorded; X has as many marks as O or one
    more; a running game has no winning line and an empty cell, and X is to
    move iff the counts are equal; a finished game keeps the last mover in
    `current`; a win belongs to the last mover alone; a draw is a full board
    without a winning line.
   */
  predicate Consistent(s: Status)
  {
    && |s.board| == Size
    && (s.gameOver <==> s.winner != Undecided)
    && Balanced(s.board)
    && (!s.gameOver ==> (s.current == X <==> Count(s.board, X) == Count(s.board, O)) && !HasWin(s.board) && !IsFull(s.board))
    && (s.gameOver ==> (s.current == X <==> Count(s.board, X) == Count(s.board, O) + 1))
    && (s.winner.WonBy? ==>
          s.winner.mark == s.current && ThreeInARow(s.board, s.current) && !ThreeInARow(s.board, Other(s.current)))
    && (s.winner == Drawn ==> IsFull(s.board) && !HasWin(s.board))
  }

  /** A value that occurs in no cell has count zero. */
  lemma {:induction false} CountAbsent(b: seq<Cell>, c: Cell)
    requires forall i :: 0 <= i < |b| ==> b[i] != c
    ensures Count(b, c) == 0
  {
    if b != [] {
      assert forall i :: 0 <= i < |b[1..]| ==> b[1..][i] == b[i + 1];
      CountAbsent(b[1..], c);
    }
  }

  lemma InitialIsConsistent()
    ensures Consistent(Initial())
  {
    var b := EmptyBoard;
    CountAbsent(b, X);
    CountAbsent(b, O);
    assert !IsFull(b) by {
      assert b[0] == Empty;
    }
  }

  /** Every move keeps the invariant, whether rejected or followed by a win, a draw or a turn change. */
  lemma PlayKeepsConsistent(s: Status, pos: int)
    requires Consistent(s)
    ensures Consistent(Play(s, pos))
  {
    if !CanPlay(s, pos) {
      return;
    }
    var b, m := s.board, s.current;
    var b' := b[pos := m];
    CountUpdate(b, pos, m, X);
    CountUpdate(b, pos, m, O);
    OnlyMoverCanWin(b, pos, m);
    HasWinIffThreeInARow(b');
  }

  /** A running game always offers an empty cell, so a move is always possible. */
  lemma RunningGameHasMove(s: Status)
    requires Consistent(s) && !s.gameOver
    ensures exists pos :: CanPlay(s, pos)
  {
    var i :| 0 <= i < |s.board| && s.board[i] == Empty;
    assert CanPlay(s, i);
  }

  /** A drawn game ends with five X marks and four O marks. */
  lemma DrawnBoardCounts(s: Status)
    requires Consistent(s) && s.winner == Drawn
    ensures Count(s.board, X) == 5 && Count(s.board, O) == 4 && s.current == X
  {
    FullIffMarksFillBoard(s.board);
  }

  /** The winner's mark tells the counts: X wins with one mark more, O with equal counts. */
  lemma WonBoardCounts(s: Status)
    requires Consistent(s) && s.winner.WonBy?
    ensures s.winner.mark == X <==> Count(s.board, X) == Count(s.board, O) + 1
  {
  }
}
