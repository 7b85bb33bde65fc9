/** The 3x3 grid: cells, the eight winning lines and the pure queries over them. */
module Board {

  /** The symbol a player places ("X" or "O" in the game). */
  datatype Mark = X | O

  /** A cell of the grid: `null` in the game, or a placed mark. */
  datatype Cell = Empty | Marked(mark: Mark)

  /** A cell index, row-major: 0 1 2 / 3 4 5 / 6 7 8. */
  type Index = i: int | 0 <= i < 9

  /** The game's `board`: always nine cells. */
  type Board = b: seq<Cell> | |b| == 9
    witness [Empty, Empty, Empty, Empty, Empty, Empty, Empty, Empty, Empty]

  const EmptyBoard: Board := seq(9, _ => Empty)

  /** The mark whose turn it is, given the `isXNext` flag. */
  function Turn(xNext: bool): Mark { if xNext then X else O }

  /** The mark that is not `m`. */
  function Other(m: Mark): Mark { if m == X then O else X }

  /** One winning combination: three cell indices. */
  datatype Line = Line(a: Index, b: Index, c: Index)

  /** `winningCombinations`: three rows, three columns, two diagonals, in this order. */
  const Lines: seq<Line> := [
    Line(0, 1, 2), Line(3, 4, 5), Line(6, 7, 8),
    Line(0, 3, 6), Line(1, 4, 7), Line(2, 5, 8),
    Line(0, 4, 8), Line(2, 4, 6)
  ]

  /** Every cell of line `l` holds `m`. */
  predicate Complete(b: Board, l: Line, m: Mark) {
    b[l.a] == Marked(m) && b[l.b] == Marked(m) && b[l.c] == Marked(m)
  }

  /** Reference definition of a win: some winning line is complete for `m`. */
  ghost predicate HasLine(b: Board, m: Mark) {
    exists k :: 0 <= k < |Lines| && Complete(b, Lines[k], m)
  }

  /** `checkWin`: scan of the combinations from the `k`-th on (`some` over `every`). */
  function CheckWinFrom(b: Board, m: Mark, k: nat): bool
    requires k <= |Lines|
    decreases |Lines| - k
  {
    k < |Lines| && (Complete(b, Lines[k], m) || CheckWinFrom(b, m, k + 1))
  }

  function CheckWin(b: Board, m: Mark): bool {
    CheckWinFrom(b, m, 0)
  }

  lemma {:induction false} CheckWinFromSpec(b: Board, m: Mark, k: nat)
    requires k <= |Lines|
    ensures CheckWinFrom(b, m, k) <==> exists j :: k <= j < |Lines| && Complete(b, Lines[j], m)
    decreases |Lines| - k
  {
    if k < |Lines| {
      CheckWinFromSpec(b, m, k + 1);
      if CheckWinFrom(b, m, k + 1) {
        var j :| k + 1 <= j < |Lines| && Complete(b, Lines[j], m);
        assert k <= j < |Lines|;
      }
    }
  }

  /** `checkWin(m)` holds exactly when one of the eight lines is complete for `m`. */
  lemma CheckWinSpec(b: Board, m: Mark)
    ensures CheckWin(b, m) <==> HasLine(b, m)
  {
    CheckWinFromSpec(b, m, 0);
  }

  /** A board with a complete X line and no complete O line: `checkWin("X")`
      holds and `checkWin("O")` does not. */
  lemma CheckWinOneLineOneMark(b: Board, k: nat)
    requires k < |Lines| && Complete(b, Lines[k], X)
    requires forall j :: 0 <= j < |Lines| ==> !Complete(b, Lines[j], O)
    ensures CheckWin(b, X) && !CheckWin(b, O)
  {
    CheckWinSpec(b, X);
    CheckWinSpec(b, O);
  }

  /** A board whose only complete line is X,X,X: `checkWin` is true for X, false for O. */
  lemma CheckWinExample()
    ensures var b: Board := [Marked(X), Marked(X), Marked(X),
                             Marked(O), Marked(O), Empty,
                             Empty, Empty, Empty];
            CheckWin(b, X) && !CheckWin(b, O)
  {
  }

  /** Placing a mark can only create a win for that mark: the other mark's
      wins are exactly those it already had. */
  lemma {:induction false} PlacingKeepsOtherWins(b: Board, i: Index, m: Mark)
    ensures CheckWin(b[i := Marked(m)], Other(m)) ==> CheckWin(b, Other(m))
  {
    var b' := b[i := Marked(m)];
    CheckWinSpec(b', Other(m));
    CheckWinSpec(b, Other(m));
    if CheckWin(b', Other(m)) {
      var k :| 0 <= k < |Lines| && Complete(b', Lines[k], Other(m));
      assert Complete(b, Lines[k], Other(m));
    }
  }

  /** `board.every(cell => cell)`: no empty cell. */
  predicate IsFull(b: Board) {
    forall i :: 0 <= i < 9 ==> b[i] != Empty
  }

  /** `board.every(cell => !cell)`: no mark placed yet. */
  predicate IsBlank(b: Board) {
    forall i :: 0 <= i < 9 ==> b[i] == Empty
  }

  /** Number of the first `n` cells that hold `c` (`filter(...).length`). */
  function CountTo(b: seq<Cell>, c: Cell, n: nat): nat
    requires n <= |b|
  {
    if n == 0 then 0 else CountTo(b, c, n - 1) + (if b[n - 1] == c then 1 else 0)
  }

  function Count(b: seq<Cell>, c: Cell): nat {
    CountTo(b, c, |b|)
  }

  lemma {:induction false} CountToUpdate(b: seq<Cell>, i: nat, v: Cell, c: Cell, n: nat)
    requires i < |b| && n <= |b|
    ensures CountTo(b[i := v], c, n) ==
            CountTo(b, c, n) + (if i < n then (if v == c then 1 else 0) - (if b[i] == c then 1 else 0) else 0)
  {
    if n > 0 {
      CountToUpdate(b, i, v, c, n - 1);
    }
  }

  /** Writing `v` into cell `i` moves one cell from `b[i]`'s count to `v`'s count. */
  lemma CountUpdate(b: seq<Cell>, i: nat, v: Cell, c: Cell)
    requires i < |b|
    ensures Count(b[i := v], c) == Count(b, c) + (if v == c then 1 else 0) - (if b[i] == c then 1 else 0)
  {
    CountToUpdate(b, i, v, c, |b|);
  }

  lemma {:induction false} CountToZero(b: seq<Cell>, c: Cell, n: nat)
    requires n <= |b|
    ensures CountTo(b, c, n) == 0 <==> forall i :: 0 <= i < n ==> b[i] != c
  {
    if n > 0 {
      CountToZero(b, c, n - 1);
    }
  }

  /** The full-board test agrees with counting empty cells. */
  lemma FullIffNoEmpty(b: Board)
    ensures IsFull(b) <==> Count(b, Empty) == 0
  {
    CountToZero(b, Empty, 9);
  }

  /** `emptyCells` for the first `n` cells: the indices of the empty ones, ascending. */
  function EmptiesBelow(b: Board, n: nat): (r: seq<Index>)
    requires n <= 9
    ensures |r| == CountTo(b, Empty, n)
    ensures forall p :: 0 <= p < |r| ==> r[p] < n && b[r[p]] == Empty
    ensures forall i :: 0 <= i < n && b[i] == Empty ==> i in r
    ensures forall p, q :: 0 <= p < q < |r| ==> r[p] < r[q]
  {
    if n == 0 then []
    else if b[n - 1] == Empty then EmptiesBelow(b, n - 1) + [n - 1]
    else EmptiesBelow(b, n - 1)
  }

  /** `[...cells].filter((_, i) => !board[i])`, as indices. */
  function EmptyCells(b: Board): seq<Index> {
    EmptiesBelow(b, 9)
  }
}
