/** Whole hot-seat matches driven through the game's click and timer
    handlers, from a freshly loaded page. */
module Scenarios {
  import opened Wrappers
  import opened Board
  import opened Protocol
  import opened Match

  /** The boards of the match X:0, O:3, X:1, O:4 after each move: the
      player who has just moved has not won and the board is not full. */
  lemma WinOpeningBoards()
    ensures var b1 := EmptyBoard[0 := Marked(X)];
      var b2 := b1[3 := Marked(O)];
      var b3 := b2[1 := Marked(X)];
      var b4 := b3[4 := Marked(O)];
      LocalVerdict(b1, X) == Undecided && LocalVerdict(b2, O) == Undecided
      && LocalVerdict(b3, X) == Undecided && LocalVerdict(b4, O) == Undecided
  {
  }

  /** X:2 then completes the top row. */
  lemma WinFinalBoard()
    ensures var b5 := EmptyBoard[0 := Marked(X)][3 := Marked(O)][1 := Marked(X)][4 := Marked(O)][2 := Marked(X)];
      b5 == [Marked(X), Marked(X), Marked(X), Marked(O), Marked(O), Empty, Empty, Empty, Empty]
      && LocalVerdict(b5, X) == Won(X)
  {
  }

  /** X:0, O:3 on a new page: nobody has won and X is to move. */
  method WinOpening() returns (g: Game)
    ensures g.Valid() && fresh(g) && fresh(g.board)
    ensures g.Cells() == EmptyBoard[0 := Marked(X)][3 := Marked(O)]
    ensures g.gameActive && g.isXNext && !g.isPaused && !g.isOnlineMode && !g.resetPending
  {
    g := new Game();
    WinOpeningBoards();
    ghost var b1 := EmptyBoard[0 := Marked(X)];
    ghost var b2 := b1[3 := Marked(O)];
    var ai := g.DrawSymbol(0);
    assert g.Cells() == b1 && !g.isXNext && g.gameActive;
    ai := g.DrawSymbol(3);
    assert g.Cells() == b2;
  }

  /** The match goes on X:1, O:4: X threatens the top row, O the middle row,
      and X is to move. */
  method WinMiddle(g: Game)
    requires g.Valid()
    requires g.Cells() == EmptyBoard[0 := Marked(X)][3 := Marked(O)]
    requires g.gameActive && g.isXNext && !g.isPaused && !g.isOnlineMode && !g.resetPending
    modifies g, g.board
    ensures g.Cells() == EmptyBoard[0 := Marked(X)][3 := Marked(O)][1 := Marked(X)][4 := Marked(O)]
    ensures g.gameActive && g.isXNext && !g.isPaused && !g.isOnlineMode && !g.resetPending
  {
    WinOpeningBoards();
    ghost var b3 := EmptyBoard[0 := Marked(X)][3 := Marked(O)][1 := Marked(X)];
    ghost var b4 := b3[4 := Marked(O)];
    var ai := g.DrawSymbol(1);
    assert g.Cells() == b3 && !g.isXNext && g.gameActive;
    ai := g.DrawSymbol(4);
    assert g.Cells() == b4;
  }

  /** X:2 completes the top row: the game freezes with a reset pending, and
      the reset blanks the grid for X. */
  method HotSeatWin() returns (g: Game, ended: Board)
    ensures g.Valid()
    ensures ended == [Marked(X), Marked(X), Marked(X), Marked(O), Marked(O), Empty, Empty, Empty, Empty]
    ensures LocalVerdict(ended, X) == Won(X)
    ensures g.Cells() == EmptyBoard && g.gameActive && g.isXNext && !g.resetPending
  {
    g := WinOpening();
    WinMiddle(g);
    WinFinalBoard();
    var ai := g.DrawSymbol(2);
    ended := g.Cells();
    assert !g.gameActive && g.resetPending;
    g.AutoResetElapsed();
  }

  /** The final board of hot-seat play X:0, O:1, X:2, O:4, X:3, O:5, X:7, O:6,
      X:8 is full without a line: a draw, found both by the mover's test and by
      the end-of-game test. */
  lemma DrawBoard()
    ensures var b: Board := [Marked(X), Marked(O), Marked(X), Marked(X), Marked(O),
                             Marked(O), Marked(O), Marked(X), Marked(X)];
      LocalVerdict(b, X) == Drawn && EndVerdict(b) == Drawn
  {
  }

  /** Play X:4, O:0, X:1, O:2, X:7 ends with X holding the middle column. */
  lemma MiddleColumnWins()
    ensures var b := EmptyBoard[4 := Marked(X)][0 := Marked(O)][1 := Marked(X)][2 := Marked(O)][7 := Marked(X)];
      Complete(b, Lines[4], X) && LocalVerdict(b, X) == Won(X)
  {
  }

  /** Two peers that agree on the board, the turn and liveness stay in step
      when one of them makes an accepted move and the other receives the move
      message it sent. */
  method LockStep(p: Game, q: Game, index: Index)
    requires p.Valid() && q.Valid() && p != q && p.board != q.board
    requires p.isOnlineMode && p.connOpen && p.gameActive && !p.isPaused && q.gameActive
    requires p.Cells() == q.Cells() && p.isXNext == q.isXNext
    requires p.board[index] == Empty && p.playerSymbol == Some(Turn(p.isXNext))
    modifies p, p.board, q, q.board
    ensures p.Cells() == q.Cells() == old(p.Cells())[index := Marked(Turn(old(p.isXNext)))]
    ensures p.isXNext == q.isXNext == !old(p.isXNext)
    ensures p.gameActive == q.gameActive
  {
    var n := |p.sent|;
    var ai := p.DrawSymbol(index);
    var msg := p.sent[n];
    q.HandleConnectionData(msg);
  }
}
