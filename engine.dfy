/**
  The game engine of game/XOGame.js: one object holding the board, the
  player to move, the gameOver flag and the winner, updated in place by
  `makeMove` and `reset`.
 */
module Engine {
  import opened Rules

  class XOGame {
    var board: array<Cell>
    var currentPlayer: Mark
    var gameOver: bool
    var winner: Winner

    /** The four fields as one value. */
    ghost function State(): Status
      reads this, board
    {
      Status(board[..], currentPlayer, gameOver, winner)
    }

    /** The object invariant: a nine-cell board and a consistent game state. */
    ghost predicate Valid()
      reads this, board
    {
      board.Length == Size && Consistent(State())
    }

    /** A fresh game: nine empty cells, X to move, not over, no winner. */
    constructor ()
      ensures Valid() && fresh(board)
      ensures State() == Initial()
    {
      board := new Cell[Size](_ => Empty);
      currentPlayer := X;
      gameOver := false;
      winner := Undecided;
      new;
      assert board[..] == EmptyBoard;
      InitialIsConsistent();
    }

    /** `checkWin`: true exactly when X or O has a full row, column or diagonal. */
    function CheckWin(): (won: bool)
      reads this, board
      requires board.Length == Size
      ensures won <==> ThreeInARow(board[..], X) || ThreeInARow(board[..], O)
    {
      HasWinIffThreeInARow(board[..]);
      HasWin(board[..])
    }

    /** `checkDraw`: true exactly when X and O marks fill all nine cells. */
    function CheckDraw(): (full: bool)
      reads this, board
      requires board.Length == Size
      ensures full <==> Count(board[..], X) + Count(board[..], O) == Size
    {
      FullIffMarksFillBoard(board[..]);
      IsFull(board[..])
    }

    /**
      `makeMove(pos)`: rejected, with nothing changed, when the game is over
      or the cell at `pos` is not '' (a position outside 0..8 reads
      `undefined`, which is not ''); otherwise the mover's mark is written
      and the game settles: win first, then draw, else the turn passes.
     */
    method MakeMove(pos: int) returns (ok: bool)
      requires Valid()
      modifies this, board
      ensures Valid() && board == old(board)
      ensures ok <==> CanPlay(old(State()), pos)
      ensures State() == Play(old(State()), pos)
    {
      if gameOver || !(0 <= pos < board.Length && board[pos] == Empty) {
        return false;
      }
      ghost var before := State();
      board[pos] := currentPlayer;
      assert board[..] == before.board[pos := before.current];
      PlayKeepsConsistent(before, pos);

      if CheckWin() {
        gameOver := true;
        winner := WonBy(currentPlayer);
      } else if CheckDraw() {
        gameOver := true;
        winner := Drawn;
      } else {
        currentPlayer := if currentPlayer == X then O else X;
      }
      return true;
    }

    /** `reset`: back to exactly the constructor's state, on a new board array. */
    method Reset()
      modifies this
      ensures Valid() && fresh(board)
      ensures State() == Initial()
    {
      board := new Cell[Size](_ => Empty);
      currentPlayer := X;
      gameOver := false;
      winner := Undecided;
      assert board[..] == EmptyBoard;
      InitialIsConsistent();
    }
  }
}
