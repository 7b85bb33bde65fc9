/** The computer opponent: minimax with depth-sensitive scores (pro) and the
    line-scan heuristic (amateur). O is always the computer's mark. */
module Opponent {
  import opened Wrappers
  import opened Board

  /** The mark placed at a search node: O on maximizing turns, X otherwise. */
  function Mover(maximizing: bool): Mark { if maximizing then O else X }

  function Max(x: int, y: int): int { if x >= y then x else y }
  function Min(x: int, y: int): int { if x <= y then x else y }

  /** The best of a non-empty list of scores, folded left to right with
      `Math.max` (maximizing) or `Math.min` (minimizing). */
  function Extreme(s: seq<int>, maximizing: bool): (r: int)
    requires |s| > 0
    ensures r in s
    ensures forall v :: v in s ==> if maximizing then v <= r else r <= v
  {
    if |s| == 1 then s[0]
    else
      assert s == s[..|s| - 1] + [s[|s| - 1]];
      var e := Extreme(s[..|s| - 1], maximizing);
      if maximizing then Max(s[|s| - 1], e) else Min(s[|s| - 1], e)
  }

  /** The value `minimax(board, depth, isMaximizing)` computes: 10 - depth when O
      has a line, depth - 10 when X has one, 0 on a full board, otherwise the
      best score over the empty cells, each tried with the mover's mark. */
  function Score(b: Board, depth: int, maximizing: bool): int
    decreases Count(b, Empty), 1
  {
    if CheckWin(b, O) then 10 - depth
    else if CheckWin(b, X) then depth - 10
    else if IsFull(b) then 0
    else
      FullIffNoEmpty(b);
      Extreme(Children(b, depth, maximizing, 9), maximizing)
  }

  /** Scores of the empty cells among the first `n`, in index order (the
      `board.forEach` of minimax). */
  function Children(b: Board, depth: int, maximizing: bool, n: nat): (r: seq<int>)
    requires n <= 9
    ensures |r| == CountTo(b, Empty, n)
    decreases Count(b, Empty), 0, n
  {
    if n == 0 then []
    else if b[n - 1] == Empty then
      CountUpdate(b, n - 1, Marked(Mover(maximizing)), Empty);
      Children(b, depth, maximizing, n - 1)
        + [Score(b[n - 1 := Marked(Mover(maximizing))], depth + 1, !maximizing)]
    else Children(b, depth, maximizing, n - 1)
  }

  /** Scores shrink towards 0 with depth: with at most 10 - depth plies left,
      every result lies in [depth - 10, 10 - depth]; from depth 0 that is [-10, 10]. */
  lemma {:induction false} ScoreBounds(b: Board, depth: int, maximizing: bool)
    requires 0 <= depth && depth + Count(b, Empty) <= 10
    ensures depth - 10 <= Score(b, depth, maximizing) <= 10 - depth
    decreases Count(b, Empty), 1
  {
    if !CheckWin(b, O) && !CheckWin(b, X) && !IsFull(b) {
      FullIffNoEmpty(b);
      ChildrenBounds(b, depth, maximizing, 9);
    }
  }

  lemma {:induction false} ChildrenBounds(b: Board, depth: int, maximizing: bool, n: nat)
    requires n <= 9 && 0 <= depth && depth + Count(b, Empty) <= 10
    ensures forall v :: v in Children(b, depth, maximizing, n) ==> depth - 9 <= v <= 9 - depth
    decreases Count(b, Empty), 0, n
  {
    if n > 0 {
      ChildrenBounds(b, depth, maximizing, n - 1);
      if b[n - 1] == Empty {
        var child := b[n - 1 := Marked(Mover(maximizing))];
        CountUpdate(b, n - 1, Marked(Mover(maximizing)), Empty);
        ScoreBounds(child, depth + 1, !maximizing);
      }
    }
  }

  /** The values `minimax` returns on a terminal board. */
  lemma ScoreAtTerminal(b: Board, depth: int, maximizing: bool)
    ensures CheckWin(b, O) ==> Score(b, depth, maximizing) == 10 - depth
    ensures !CheckWin(b, O) && CheckWin(b, X) ==> Score(b, depth, maximizing) == depth - 10
    ensures !CheckWin(b, O) && !CheckWin(b, X) && IsFull(b) ==> Score(b, depth, maximizing) == 0
  {
  }

  /** Without a line for O the score stays strictly below the win score 10 - depth. */
  lemma ScoreBelowWin(b: Board, depth: int, maximizing: bool)
    requires 0 <= depth < 10 && depth + Count(b, Empty) <= 10
    requires !CheckWin(b, O)
    ensures Score(b, depth, maximizing) < 10 - depth
  {
    if !CheckWin(b, X) && !IsFull(b) {
      FullIffNoEmpty(b);
      ChildrenBounds(b, depth, maximizing, 9);
    }
  }

  /** Every score the pro search compares (O placed, then `minimax(board, 0, false)`)
      lies in [-10, 10]. */
  lemma MoveValueBounds(b: Board, j: Index, player: Mark)
    requires b[j] == Empty
    ensures -10 <= MoveValue(b, j, player) <= 10
  {
    CountUpdate(b, j, Marked(player), Empty);
    assert Count(b, Empty) <= 9 by { CountToBound(b, Empty, 9); }
    ScoreBounds(b[j := Marked(player)], 0, false);
  }

  lemma {:induction false} CountToBound(b: seq<Cell>, c: Cell, n: nat)
    requires n <= |b|
    ensures CountTo(b, c, n) <= n
  {
    if n > 0 {
      CountToBound(b, c, n - 1);
    }
  }

  /** `minimax`: searches by placing marks in `a` and clearing them again, so
      the board is left as it was; the result is `Score` of the board. */
  method Minimax(a: array<Cell>, depth: int, maximizing: bool) returns (score: int)
    requires a.Length == 9
    modifies a
    ensures a[..] == old(a[..])
    ensures score == Score(old(a[..]), depth, maximizing)
    decreases Count(a[..], Empty)
  {
    ghost var b: Board := a[..];
    if CheckWin(a[..], O) { return 10 - depth; }
    if CheckWin(a[..], X) { return depth - 10; }
    if IsFull(a[..]) { return 0; }
    var best: Option<int> := None;  // -Infinity when maximizing, Infinity otherwise
    ghost var scores: seq<int> := [];
    var i := 0;
    while i < 9
      invariant 0 <= i <= 9
      invariant a[..] == b
      invariant scores == Children(b, depth, maximizing, i)
      invariant best.None? <==> scores == []
      invariant best.Some? ==> best.value == Extreme(scores, maximizing)
    {
      if a[i] == Empty {
        var mark := Marked(Mover(maximizing));
        a[i] := mark;
        assert a[..] == b[i := mark];
        CountUpdate(b, i, mark, Empty);
        var s := Minimax(a, depth + 1, !maximizing);
        a[i] := Empty;
        assert a[..] == b;
        ExtremeSnoc(scores, s, maximizing);
        best := Some(if best.None? then s
                     else if maximizing then Max(s, best.value)
                     else Min(s, best.value));
        scores := scores + [s];
      }
      i := i + 1;
    }
    FullIffNoEmpty(b);
    score := best.value;
  }

  lemma ExtremeSnoc(s: seq<int>, v: int, maximizing: bool)
    ensures Extreme(s + [v], maximizing) ==
      if s == [] then v else if maximizing then Max(v, Extreme(s, maximizing)) else Min(v, Extreme(s, maximizing))
  {
    assert (s + [v])[..|s|] == s;
  }

  /** The score the pro branch gives to cell `j`: `player` placed there, then
      `minimax(board, 0, false)`. */
  function MoveValue(b: Board, j: Index, player: Mark): int {
    Score(b[j := Marked(player)], 0, false)
  }

  /** `move` is listed in `empties`, no listed cell scores higher, and every cell
      listed before it scores strictly lower (the strict `>` keeps the first best). */
  ghost predicate FirstBest(b: Board, empties: seq<Index>, player: Mark, move: Index) {
    exists p :: 0 <= p < |empties| && empties[p] == move
      && (forall k :: 0 <= k < |empties| ==> MoveValue(b, empties[k], player) <= MoveValue(b, move, player))
      && (forall k :: 0 <= k < p ==> MoveValue(b, empties[k], player) < MoveValue(b, move, player))
  }

  /** One candidate of the pro branch: place `player` at `index`, score the
      position with `minimax(board, 0, false)`, and clear the cell again. */
  method TryPlacement(a: array<Cell>, index: Index, player: Mark) returns (score: int)
    requires a.Length == 9 && a[index] == Empty
    modifies a
    ensures a[..] == old(a[..])
    ensures score == MoveValue(old(a[..]), index, player)
  {
    ghost var b: Board := a[..];
    a[index] := Marked(player);
    assert a[..] == b[index := Marked(player)];
    score := Minimax(a, 0, false);
    a[index] := Empty;
    assert a[..] == b;
  }

  /** The pro branch of `getBestMove`. */
  method ProMove(a: array<Cell>, empties: seq<Index>, player: Mark) returns (move: Index)
    requires a.Length == 9 && |empties| > 0
    requires forall k :: 0 <= k < |empties| ==> a[empties[k]] == Empty
    modifies a
    ensures a[..] == old(a[..])
    ensures FirstBest(old(a[..]), empties, player, move)
  {
    ghost var b: Board := a[..];
    var bestScore := 0;  // meaningful once k > 0; -Infinity before
    move := empties[0];  // `bestMove` is replaced on the first comparison
    ghost var pos := 0;
    ghost var scores: seq<int> := [];
    var k := 0;
    while k < |empties|
      invariant 0 <= k <= |empties| && |scores| == k
      invariant a[..] == b
      invariant forall q :: 0 <= q < k ==> scores[q] == MoveValue(b, empties[q], player)
      invariant 0 <= pos < |empties| && pos <= k && empties[pos] == move
      invariant k > 0 ==> pos < k && bestScore == scores[pos]
      invariant forall q :: 0 <= q < k ==> scores[q] <= bestScore
      invariant forall q :: 0 <= q < pos ==> scores[q] < bestScore
    {
      var index := empties[k];
      var score := TryPlacement(a, index, player);
      if k == 0 || score > bestScore {
        bestScore := score;
        move := index;
        pos := k;
      }
      scores := scores + [score];
      k := k + 1;
    }
    FirstBestOfScores(b, empties, player, scores, pos);
  }

  /** The argmax facts the pro loop keeps about its scores give `FirstBest`. */
  lemma FirstBestOfScores(b: Board, empties: seq<Index>, player: Mark, scores: seq<int>, pos: nat)
    requires |scores| == |empties| && pos < |empties|
    requires forall q :: 0 <= q < |empties| ==> scores[q] == MoveValue(b, empties[q], player)
    requires forall q :: 0 <= q < |empties| ==> scores[q] <= scores[pos]
    requires forall q :: 0 <= q < pos ==> scores[q] < scores[pos]
    ensures FirstBest(b, empties, player, empties[pos])
  {
    assert 0 <= pos < |empties| && empties[pos] == empties[pos];
  }

  /** Over the game's own `emptyCells` (all empty cells, ascending), a
      first-best choice scores at least as high as every empty cell and
      strictly higher than every empty cell with a smaller index. */
  lemma FirstBestInIndexOrder(b: Board, player: Mark, move: Index)
    requires FirstBest(b, EmptyCells(b), player, move)
    ensures b[move] == Empty
    ensures forall j: Index :: b[j] == Empty ==> MoveValue(b, j, player) <= MoveValue(b, move, player)
    ensures forall j: Index :: j < move && b[j] == Empty ==> MoveValue(b, j, player) < MoveValue(b, move, player)
  {
    var e := EmptyCells(b);
    var p :| 0 <= p < |e| && e[p] == move
      && (forall k :: 0 <= k < |e| ==> MoveValue(b, e[k], player) <= MoveValue(b, move, player))
      && (forall k :: 0 <= k < p ==> MoveValue(b, e[k], player) < MoveValue(b, move, player));
    forall j: Index | b[j] == Empty
      ensures MoveValue(b, j, player) <= MoveValue(b, move, player)
      ensures j < move ==> MoveValue(b, j, player) < MoveValue(b, move, player)
    {
      var q :| 0 <= q < |e| && e[q] == j;
    }
  }

  /** When O can complete a line at once, a first-best choice completes one. */
  lemma ProTakesImmediateWin(b: Board, empties: seq<Index>, move: Index, j: Index)
    requires forall k :: 0 <= k < |empties| ==> b[empties[k]] == Empty
    requires FirstBest(b, empties, O, move)
    requires j in empties && CheckWin(b[j := Marked(O)], O)
    ensures CheckWin(b[move := Marked(O)], O)
  {
    var q :| 0 <= q < |empties| && empties[q] == j;
    assert MoveValue(b, j, O) == 10;
    assert MoveValue(b, j, O) <= MoveValue(b, move, O);
    var after := b[move := Marked(O)];
    if !CheckWin(after, O) {
      CountUpdate(b, move, Marked(O), Empty);
      CountToBound(b, Empty, 9);
      ScoreBelowWin(after, 0, false);
      assert false;
    }
  }

  /** The cell of line `l` that completes two marks `m`, tried in the source's
      order: third cell, middle cell, first cell; it must be empty and listed. */
  function Completion(b: Board, l: Line, m: Mark, empties: seq<Index>): Option<Index> {
    if b[l.a] == Marked(m) && b[l.b] == Marked(m) && b[l.c] == Empty && l.c in empties then Some(l.c)
    else if b[l.a] == Marked(m) && b[l.b] == Empty && b[l.c] == Marked(m) && l.b in empties then Some(l.b)
    else if b[l.a] == Empty && b[l.b] == Marked(m) && b[l.c] == Marked(m) && l.a in empties then Some(l.a)
    else None
  }

  /** The amateur choice from the `k`-th line on: on each line O's completion,
      then X's; after all lines the centre; then the randomly picked empty cell. */
  function AmateurFrom(b: Board, empties: seq<Index>, pick: nat, k: nat): Index
    requires pick < |empties| && k <= |Lines|
    decreases |Lines| - k
  {
    if k == |Lines| then
      (if b[4] == Empty && 4 in empties then 4 else empties[pick])
    else match Completion(b, Lines[k], O, empties)
      case Some(c) => c
      case None =>
        match Completion(b, Lines[k], X, empties)
        case Some(c) => c
        case None => AmateurFrom(b, empties, pick, k + 1)
  }

  /** The amateur branch of `getBestMove`. */
  method AmateurMove(a: array<Cell>, empties: seq<Index>, pick: nat) returns (move: Index)
    requires a.Length == 9 && pick < |empties|
    ensures move == AmateurFrom(a[..], empties, pick, 0)
  {
    ghost var b: Board := a[..];
    var k := 0;
    while k < |Lines|
      invariant 0 <= k <= |Lines|
      invariant AmateurFrom(b, empties, pick, 0) == AmateurFrom(b, empties, pick, k)
    {
      var l := Lines[k];
      if a[l.a] == Marked(O) && a[l.b] == Marked(O) && a[l.c] == Empty && l.c in empties { return l.c; }
      if a[l.a] == Marked(O) && a[l.b] == Empty && a[l.c] == Marked(O) && l.b in empties { return l.b; }
      if a[l.a] == Empty && a[l.b] == Marked(O) && a[l.c] == Marked(O) && l.a in empties { return l.a; }
      if a[l.a] == Marked(X) && a[l.b] == Marked(X) && a[l.c] == Empty && l.c in empties { return l.c; }
      if a[l.a] == Marked(X) && a[l.b] == Empty && a[l.c] == Marked(X) && l.b in empties { return l.b; }
      if a[l.a] == Empty && a[l.b] == Marked(X) && a[l.c] == Marked(X) && l.a in empties { return l.a; }
      k := k + 1;
    }
    if a[4] == Empty && 4 in empties { return 4; }
    move := empties[pick];
  }

  /** `getBestMove(emptyCells, player, isPro)`: the board is left as it was. */
  method GetBestMove(a: array<Cell>, empties: seq<Index>, player: Mark, isPro: bool, pick: nat)
    returns (move: Index)
    requires a.Length == 9 && |empties| > 0
    requires !isPro ==> pick < |empties|
    requires forall k :: 0 <= k < |empties| ==> a[empties[k]] == Empty
    modifies a
    ensures a[..] == old(a[..])
    ensures move in empties
    ensures isPro ==> FirstBest(old(a[..]), empties, player, move)
    ensures !isPro ==> move == AmateurFrom(old(a[..]), empties, pick, 0)
  {
    if isPro {
      move := ProMove(a, empties, player);
    } else {
      move := AmateurMove(a, empties, pick);
      AmateurChoosesListed(a[..], empties, pick, 0);
    }
  }

  /** Cell `c` of line `l` is empty and the other two cells hold `m`. */
  predicate Completes(b: Board, l: Line, m: Mark, c: Index) {
    b[c] == Empty &&
    ((c == l.a && b[l.b] == Marked(m) && b[l.c] == Marked(m)) ||
     (c == l.b && b[l.a] == Marked(m) && b[l.c] == Marked(m)) ||
     (c == l.c && b[l.a] == Marked(m) && b[l.b] == Marked(m)))
  }

  /** Line `k` has a listed cell that completes two of either mark. */
  ghost predicate Threatened(b: Board, empties: seq<Index>, k: nat)
    requires k < |Lines|
  {
    exists m: Mark, c: Index :: c in empties && Completes(b, Lines[k], m, c)
  }

  lemma CompletionSpec(b: Board, l: Line, m: Mark, empties: seq<Index>)
    ensures Completion(b, l, m, empties).Some? ==>
      Completion(b, l, m, empties).value in empties && Completes(b, l, m, Completion(b, l, m, empties).value)
    ensures Completion(b, l, m, empties).None? ==>
      forall c: Index :: c in empties ==> !Completes(b, l, m, c)
  {
  }

  /** The amateur choice is always one of the listed cells. */
  lemma {:induction false} AmateurChoosesListed(b: Board, empties: seq<Index>, pick: nat, k: nat)
    requires pick < |empties| && k <= |Lines|
    ensures AmateurFrom(b, empties, pick, k) in empties
    decreases |Lines| - k
  {
    if k < |Lines| {
      CompletionSpec(b, Lines[k], O, empties);
      CompletionSpec(b, Lines[k], X, empties);
      AmateurChoosesListed(b, empties, pick, k + 1);
    }
  }

  /** A line where the scan finds a completion is threatened. */
  lemma CompletionThreatens(b: Board, empties: seq<Index>, k: nat, m: Mark)
    requires k < |Lines|
    ensures Completion(b, Lines[k], m, empties).Some? ==> Threatened(b, empties, k)
  {
    CompletionSpec(b, Lines[k], m, empties);
    if Completion(b, Lines[k], m, empties).Some? {
      var c := Completion(b, Lines[k], m, empties).value;
      assert c in empties && Completes(b, Lines[k], m, c);
    }
  }

  /** Lines without a threat are passed over. */
  lemma {:induction false} AmateurSkipsQuietLines(b: Board, empties: seq<Index>, pick: nat, k: nat, k0: nat)
    requires pick < |empties| && k <= k0 <= |Lines|
    requires forall j :: k <= j < k0 ==> !Threatened(b, empties, j)
    ensures AmateurFrom(b, empties, pick, k) == AmateurFrom(b, empties, pick, k0)
    decreases k0 - k
  {
    if k < k0 {
      CompletionThreatens(b, empties, k, O);
      CompletionThreatens(b, empties, k, X);
      AmateurSkipsQuietLines(b, empties, pick, k + 1, k0);
    }
  }

  /** The amateur answers the first line that has a threat, with the cell that
      completes it, preferring O's own completion on that line; no finishing
      move on a later line takes priority over a block on an earlier one. */
  lemma AmateurAnswersFirstThreat(b: Board, empties: seq<Index>, pick: nat, k0: nat)
    requires pick < |empties| && k0 < |Lines|
    requires Threatened(b, empties, k0)
    requires forall k :: 0 <= k < k0 ==> !Threatened(b, empties, k)
    ensures exists m :: Completes(b, Lines[k0], m, AmateurFrom(b, empties, pick, 0))
    ensures (exists c :: c in empties && Completes(b, Lines[k0], O, c)) ==>
      Completes(b, Lines[k0], O, AmateurFrom(b, empties, pick, 0))
  {
    AmateurSkipsQuietLines(b, empties, pick, 0, k0);
    CompletionSpec(b, Lines[k0], O, empties);
    CompletionSpec(b, Lines[k0], X, empties);
    var m, c :| c in empties && Completes(b, Lines[k0], m, c);
    var r := AmateurFrom(b, empties, pick, 0);
    if Completion(b, Lines[k0], O, empties).Some? {
      assert Completes(b, Lines[k0], O, r);
    } else {
      assert m == X;
      assert Completes(b, Lines[k0], X, r);
    }
  }

  /** With no threat on any line the amateur takes the free centre, and
      otherwise the randomly picked empty cell. */
  lemma AmateurWithoutThreats(b: Board, empties: seq<Index>, pick: nat)
    requires pick < |empties|
    requires forall k :: 0 <= k < |Lines| ==> !Threatened(b, empties, k)
    ensures AmateurFrom(b, empties, pick, 0) == if b[4] == Empty && 4 in empties then 4 else empties[pick]
  {
    AmateurSkipsQuietLines(b, empties, pick, 0, |Lines|);
  }

  /** X,X,_ on the top row, O,O,_ on the middle row and X in the corner below,
      with O to move: the amateur blocks at 2 instead of winning at 5, because
      the top row is scanned first. */
  lemma AmateurBlocksBeforeWinning(empties: seq<Index>, pick: nat)
    requires pick < |empties| && 2 in empties && 5 in empties
    ensures var b: Board := [Marked(X), Marked(X), Empty,
                             Marked(O), Marked(O), Empty,
                             Marked(X), Empty, Empty];
            Completes(b, Lines[1], O, 5) && AmateurFrom(b, empties, pick, 0) == 2
  {
  }

}
