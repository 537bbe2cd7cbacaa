/**
  The game state of the browser client, public/script.js: the module-level
  variables `board`, `currentPlayer`, `gameOver`, `winner`, `moves` and
  `gameStartTime`, gathered into one object, with the state-changing part of
  `handleCellClick` and the `initGame` / `resetGame` pair. The click handler
  returns the finished-game record that the source hands to
  `saveGameResult`, exactly on the click that ends the game.
 */
module Browser {
  import opened Rules

  datatype Option<T> = None | Some(value: T)

  /** One entry of `moves`: `{player, position, timestamp}`. */
  datatype MoveRecord = MoveRecord(player: Mark, position: Index, timestamp: int)

  /** The arguments of `saveGameResult(winner, moves, board, duration)`. */
  datatype Summary = Summary(winner: Winner, moves: seq<MoveRecord>, finalBoard: seq<Cell>, duration: int)

  /** Each logged move's cell still holds the mark written there. */
  ghost predicate Recorded(b: seq<Cell>, moves: seq<MoveRecord>)
  {
    forall i :: 0 <= i < |moves| ==> moves[i].position < |b| && b[moves[i].position] == moves[i].player
  }

  /** No position is logged twice. */
  ghost predicate DistinctPositions(moves: seq<MoveRecord>)
  {
    forall i, j :: 0 <= i < j < |moves| ==> moves[i].position != moves[j].position
  }

  /** The mark that makes move number `i`, counting from 0: X on even numbers, O on odd ones. */
  function MoverOf(i: nat): Mark
  {
    if i % 2 == 0 then X else O
  }

  /** X makes the first, third, fifth ... move and O the others. */
  ghost predicate Alternates(moves: seq<MoveRecord>)
  {
    forall i :: 0 <= i < |moves| ==> moves[i].player == MoverOf(i)
  }

  /**
    The move log agrees with the board: it has one entry per marked cell,
    each entry's cell still holds its mark, no position is logged twice, and
    X and O alternate starting with X.
   */
  ghost predicate LogMatches(b: seq<Cell>, moves: seq<MoveRecord>)
  {
    && |moves| == Count(b, X) + Count(b, O)
    && Recorded(b, moves)
    && DistinctPositions(moves)
    && Alternates(moves)
  }

  /** After `x` moves of X and `o` of O, with X never behind, X moves next exactly when the counts are equal. */
  lemma MoverOfCounts(x: nat, o: nat)
    requires x == o || x == o + 1
    ensures MoverOf(x + o) == if x == o then X else O
  {
  }

  /** A new record for an empty cell keeps the older records' cells marked and the positions distinct. */
  lemma RecordsAppend(b: seq<Cell>, moves: seq<MoveRecord>, r: MoveRecord)
    requires r.position < |b| && b[r.position] == Empty
    requires Recorded(b, moves) && DistinctPositions(moves)
    ensures Recorded(b[r.position := r.player], moves + [r])
    ensures DistinctPositions(moves + [r])
  {
  }

  /**
    Appending the record of an accepted move keeps the log in step with the
    board. What is needed of the running game: the mover is X exactly when
    the counts are equal, and X is never behind O.
   */
  lemma LogAppend(b: seq<Cell>, m: Mark, moves: seq<MoveRecord>, pos: Index, time: int)
    requires pos < |b| && b[pos] == Empty
    requires Balanced(b) && (m == X <==> Count(b, X) == Count(b, O))
    requires LogMatches(b, moves)
    ensures LogMatches(b[pos := m], moves + [MoveRecord(m, pos, time)])
  {
    var r := MoveRecord(m, pos, time);
    RecordsAppend(b, moves, r);
    CountUpdate(b, pos, m, X);
    CountUpdate(b, pos, m, O);
    MoverOfCounts(Count(b, X), Count(b, O));
  }

  /** The empty log matches the empty board. */
  lemma EmptyLogMatches()
    ensures LogMatches(EmptyBoard, [])
  {
    CountAbsent(EmptyBoard, X);
    CountAbsent(EmptyBoard, O);
  }

  class BrowserGame {
    var board: array<Cell>
    var currentPlayer: Mark
    var gameOver: bool
    var winner: Winner
    var moves: seq<MoveRecord>
    var gameStartTime: int

    ghost function State(): Status
      reads this, board
    {
      Status(board[..], currentPlayer, gameOver, winner)
    }

    ghost predicate Valid()
      reads this, board
    {
      board.Length == Size && Consistent(State()) && LogMatches(board[..], moves)
    }

    /** Script load: the `let` initialisers followed by the call to `initGame`. */
    constructor (now: int)
      ensures Valid() && fresh(board)
      ensures State() == Initial() && moves == [] && gameStartTime == now
    {
      board := new Cell[Size](_ => Empty);
      currentPlayer := X;
      gameOver := false;
      winner := Undecided;
      moves := [];
      gameStartTime := now;
      new;
      InitGame(now);
    }

    /** `initGame`: empty board, X to move, not over, no winner, empty log, clock restarted. */
    method InitGame(now: int)
      modifies this
      ensures Valid() && fresh(board)
      ensures State() == Initial() && moves == [] && gameStartTime == now
    {
      board := new Cell[Size](_ => Empty);
      currentPlayer := X;
      gameOver := false;
      winner := Undecided;
      moves := [];
      gameStartTime := now;
      assert board[..] == EmptyBoard;
      assert State() == Initial();
      InitialIsConsistent();
      EmptyLogMatches();
    }

    /** `resetGame`: `initGame` and then an empty log once more. */
    method ResetGame(now: int)
      modifies this
      ensures Valid() && fresh(board)
      ensures State() == Initial() && moves == [] && gameStartTime == now
    {
      InitGame(now);
      moves := [];
    }

    /** `checkWinner`: true exactly when X or O has a full row, column or diagonal. */
    function CheckWinner(): (won: bool)
      reads this, board
      requires board.Length == Size
      ensures won <==> ThreeInARow(board[..], X) || ThreeInARow(board[..], O)
    {
      HasWinIffThreeInARow(board[..]);
      HasWin(board[..])
    }

    /**
      The state-changing part of `handleCellClick(index)`, with `now` standing
      for `Date.now()`. A click on a finished game or on a cell that is not ''
      changes nothing. Otherwise the mark is written, one record is appended
      to `moves`, and the game settles: win first, then a full board, else the
      turn passes. The finished-game record is returned exactly when this
      click ends the game.
     */
    method HandleCellClick(index: int, now: int) returns (summary: Option<Summary>)
      requires Valid()
      modifies this, board
      ensures Valid() && board == old(board) && gameStartTime == old(gameStartTime)
      ensures State() == Play(old(State()), index)
      ensures moves == if CanPlay(old(State()), index) then old(moves) + [MoveRecord(old(currentPlayer), index, now)] else old(moves)
      ensures summary.Some? <==> !old(gameOver) && gameOver
      ensures summary.Some? ==>
        && winner != Undecided
        && summary.value == Summary(winner, moves, board[..], now - gameStartTime)
    {
      if gameOver || !(0 <= index < board.Length && board[index] == Empty) {
        return None;
      }
      ghost var before, log := State(), moves;
      board[index] := currentPlayer;
      moves := moves + [MoveRecord(currentPlayer, index, now)];
      ghost var after := before.board[index := before.current];
      assert board[..] == after;
      PlayKeepsConsistent(before, index);
      LogAppend(before.board, before.current, log, index, now);

      if CheckWinner() {
        gameOver := true;
        winner := WonBy(currentPlayer);
        summary := Some(Summary(winner, moves, board[..], now - gameStartTime));
      } else if IsFull(board[..]) {
        gameOver := true;
        winner := Drawn;
        summary := Some(Summary(winner, moves, board[..], now - gameStartTime));
      } else {
        currentPlayer := if currentPlayer == X then O else X;
        summary := None;
      }
      assert board[..] == after;
      assert State() == Play(before, index);
    }
  }
}
