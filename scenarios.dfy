/**
  Complete games played through the transition both engines follow.
 */
module Scenarios {
  import opened Rules
  import opened Browser

  /** An accepted move onto board `b` that neither wins nor fills it passes the turn. */
  lemma Continues(s: Status, pos: int, e: Index)
    requires |s.board| == Size && CanPlay(s, pos)
    requires !HasWin(s.board[pos := s.current]) && s.board[pos := s.current][e] == Empty
    ensures Play(s, pos) == Status(s.board[pos := s.current], Other(s.current), false, s.winner)
  {
  }

  /** A nine-cell board none of whose cells is empty is full. */
  lemma FullByCells(b: seq<Cell>)
    requires |b| == Size
    requires b[0] != Empty && b[1] != Empty && b[2] != Empty
    requires b[3] != Empty && b[4] != Empty && b[5] != Empty
    requires b[6] != Empty && b[7] != Empty && b[8] != Empty
    ensures IsFull(b)
  {
  }

  /** X@0, O@1, X@4, O@2, X@8: the diagonal 0-4-8 wins for X on the fifth move, not before. */
  lemma DiagonalWin()
    ensures Play(Play(Play(Play(Initial(), 0), 1), 4), 2).winner == Undecided
    ensures Play(Play(Play(Play(Play(Initial(), 0), 1), 4), 2), 8)
         == Status([X, O, O, Empty, X, Empty, Empty, Empty, X], X, true, WonBy(X))
  {
    var b1 := EmptyBoard[0 := X];
    var b2 := b1[1 := O];
    var b3 := b2[4 := X];
    var b4 := b3[2 := O];
    var b5 := b4[8 := X];
    assert Play(Initial(), 0) == Status(b1, O, false, Undecided) by {
      HasWinCases(b1);
      Continues(Initial(), 0, 5);
    }
    assert Play(Status(b1, O, false, Undecided), 1) == Status(b2, X, false, Undecided) by {
      HasWinCases(b2);
      Continues(Status(b1, O, false, Undecided), 1, 5);
    }
    assert Play(Status(b2, X, false, Undecided), 4) == Status(b3, O, false, Undecided) by {
      HasWinCases(b3);
      Continues(Status(b2, X, false, Undecided), 4, 5);
    }
    assert Play(Status(b3, O, false, Undecided), 2) == Status(b4, X, false, Undecided) by {
      HasWinCases(b4);
      Continues(Status(b3, O, false, Undecided), 2, 5);
    }
    assert Play(Status(b4, X, false, Undecided), 8) == Status(b5, X, true, WonBy(X)) by {
      HasWinCases(b5);
    }
    assert b5 == [X, O, O, Empty, X, Empty, Empty, Empty, X];
  }

  /** The first three moves of a drawn game: X@0, O@1, X@2 fill the top row as X O X. */
  lemma DrawTopRow()
    ensures Play(Play(Play(Initial(), 0), 1), 2)
         == Status([X, O, X, Empty, Empty, Empty, Empty, Empty, Empty], O, false, Undecided)
  {
    var b1 := EmptyBoard[0 := X];
    var b2 := b1[1 := O];
    var b3 := b2[2 := X];
    assert Play(Initial(), 0) == Status(b1, O, false, Undecided) by {
      HasWinCases(b1);
      Continues(Initial(), 0, 8);
    }
    assert Play(Status(b1, O, false, Undecided), 1) == Status(b2, X, false, Undecided) by {
      HasWinCases(b2);
      Continues(Status(b1, O, false, Undecided), 1, 8);
    }
    assert Play(Status(b2, X, false, Undecided), 2) == Status(b3, O, false, Undecided) by {
      HasWinCases(b3);
      Continues(Status(b2, X, false, Undecided), 2, 8);
    }
    assert b3 == [X, O, X, Empty, Empty, Empty, Empty, Empty, Empty];
  }

  /** The opening of a drawn game: X@0, O@1, X@2, O@4, X@3, after which O is to move. */
  lemma DrawOpening()
    ensures Play(Play(Play(Play(Play(Initial(), 0), 1), 2), 4), 3)
         == Status([X, O, X, X, O, Empty, Empty, Empty, Empty], O, false, Undecided)
  {
    DrawTopRow();
    var b3 := [X, O, X, Empty, Empty, Empty, Empty, Empty, Empty];
    var b4 := b3[4 := O];
    var b5 := b4[3 := X];
    assert Play(Status(b3, O, false, Undecided), 4) == Status(b4, X, false, Undecided) by {
      HasWinCases(b4);
      Continues(Status(b3, O, false, Undecided), 4, 8);
    }
    assert Play(Status(b4, X, false, Undecided), 3) == Status(b5, O, false, Undecided) by {
      HasWinCases(b5);
      Continues(Status(b4, X, false, Undecided), 3, 8);
    }
    assert b5 == [X, O, X, X, O, Empty, Empty, Empty, Empty];
  }

  /** O@5, X@7, O@6 after the drawn game's opening: still no three in a row. */
  lemma DrawMiddle()
    ensures Play(Play(Play(Status([X, O, X, X, O, Empty, Empty, Empty, Empty], O, false, Undecided), 5), 7), 6)
         == Status([X, O, X, X, O, O, O, X, Empty], X, false, Undecided)
  {
    var b5 := [X, O, X, X, O, Empty, Empty, Empty, Empty];
    var b6 := b5[5 := O];
    var b7 := b6[7 := X];
    var b8 := b7[6 := O];
    assert Play(Status(b5, O, false, Undecided), 5) == Status(b6, X, false, Undecided) by {
      HasWinCases(b6);
      Continues(Status(b5, O, false, Undecided), 5, 8);
    }
    assert Play(Status(b6, X, false, Undecided), 7) == Status(b7, O, false, Undecided) by {
      HasWinCases(b7);
      Continues(Status(b6, X, false, Undecided), 7, 8);
    }
    assert Play(Status(b7, O, false, Undecided), 6) == Status(b8, X, false, Undecided) by {
      HasWinCases(b8);
      Continues(Status(b7, O, false, Undecided), 6, 8);
    }
    assert b8 == [X, O, X, X, O, O, O, X, Empty];
  }

  /** X@8 on X O X / X O O / O X _ fills the board with no three in a row: a draw. */
  lemma DrawFinal()
    ensures Play(Status([X, O, X, X, O, O, O, X, Empty], X, false, Undecided), 8)
         == Status([X, O, X, X, O, O, O, X, X], X, true, Drawn)
  {
  }

  /**
    X@0, O@1, X@2, O@4, X@3, O@5, X@7, O@6, X@8 fill the board as
    X O X / X O O / O X X with no three in a row at any point: the last move
    ends the game in a draw.
   */
  lemma FullBoardDraw()
    ensures var s8 := Play(Play(Play(Play(Play(Play(Play(Play(Initial(), 0), 1), 2), 4), 3), 5), 7), 6);
      && s8.winner == Undecided
      && Play(s8, 8) == Status([X, O, X, X, O, O, O, X, X], X, true, Drawn)
  {
    DrawOpening();
    DrawMiddle();
    DrawFinal();
  }

  /** X O X / O X O / O X _ with X to move, four marks each and no line, satisfies the game invariant. */
  lemma LastCellStartConsistent()
    ensures Consistent(Status([X, O, X, O, X, O, O, X, Empty], X, false, Undecided))
  {
    var b8 := [X, O, X, O, X, O, O, X, Empty];
    HasWinCases(b8);
    assert b8[8] == Empty;
    assert Count(b8, X) == 4 && Count(b8, O) == 4;
  }

  /**
    X@8 on X O X / O X O / O X _ completes the diagonal 0-4-8 and fills the
    board at once: the win is recorded, not a draw.
   */
  lemma WinOnLastCell()
    ensures Consistent(Status([X, O, X, O, X, O, O, X, Empty], X, false, Undecided))
    ensures var r := Play(Status([X, O, X, O, X, O, O, X, Empty], X, false, Undecided), 8);
      && r == Status([X, O, X, O, X, O, O, X, X], X, true, WonBy(X))
      && IsFull(r.board)
  {
    LastCellStartConsistent();
    var b9 := [X, O, X, O, X, O, O, X, X];
    assert [X, O, X, O, X, O, O, X, Empty][8 := X] == b9;
    assert Held(b9, Lines[6]);
    FullByCells(b9);
  }

  /** X@4 opens the game: X in the centre, O to move. */
  lemma CentreOpening()
    ensures Play(Initial(), 4) == Status([Empty, Empty, Empty, Empty, X, Empty, Empty, Empty, Empty], O, false, Undecided)
  {
    var b1 := EmptyBoard[4 := X];
    HasWinCases(b1);
    Continues(Initial(), 4, 0);
    assert b1 == [Empty, Empty, Empty, Empty, X, Empty, Empty, Empty, Empty];
  }

  /**
    Two clicks on the centre cell of a fresh browser game: the second is
    rejected, so the log holds one move and no game result is produced.
   */
  method RepeatedClick() returns (logged: nat, reported: bool)
    ensures logged == 1 && !reported
  {
    var g := new BrowserGame(0);
    var first := g.HandleCellClick(4, 10);
    CentreOpening();
    assert !g.gameOver && g.board[4] == X;
    var second := g.HandleCellClick(4, 20);
    logged := |g.moves|;
    reported := first.Some? || second.Some?;
  }
}
