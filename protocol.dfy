/** Rules and session protocol as values: end-of-game verdicts, the hot-seat
    consistency invariant, role assignment, wire messages, the sync throttle
    and the session code. */
module Protocol {
  import opened Wrappers
  import opened Board

  /** A message on the peer channel; `move`, `sync` and `clear` carry a full
      board snapshot. `Unrecognized` stands for any other `type`. */
  datatype Message =
    | MoveMsg(board: Board)
    | SyncMsg(board: Board)
    | ClearMsg(board: Board)
    | GameOverMsg(text: string)
    | ChatMsg(text: string)
    | Unrecognized

  /** Computer difficulty; any other `data-difficulty` value behaves as Beginner. */
  datatype Difficulty = Beginner | Amateur | Pro

  /** The radial mode selector: hot-seat, against the computer, or online. */
  datatype Mode = HotSeat | Computer | Online

  /** What the end-of-game test concludes. */
  datatype Verdict = Won(winner: Mark) | Drawn | Undecided

  /** `handleLocalMove`'s test after `mover` has played: that mark's win first,
      then the full board. */
  function LocalVerdict(b: Board, mover: Mark): (v: Verdict)
    ensures v.Won? ==> v.winner == mover && HasLine(b, mover)
    ensures v.Drawn? ==> IsFull(b) && !HasLine(b, mover)
    ensures v.Undecided? ==> !IsFull(b) && !HasLine(b, mover)
  {
    CheckWinSpec(b, mover);
    if CheckWin(b, mover) then Won(mover) else if IsFull(b) then Drawn else Undecided
  }

  /** `checkGameEnd`'s guess at who moved last: X when X has more marks, else O. */
  function LastPlayer(b: Board): Mark {
    if Count(b, Marked(X)) > Count(b, Marked(O)) then X else O
  }

  /** `checkGameEnd`'s test: the last player's win, then the full board. */
  function EndVerdict(b: Board): Verdict {
    LocalVerdict(b, LastPlayer(b))
  }

  function MarkName(m: Mark): string { if m == X then "X" else "O" }

  /** The overlay and `gameOver` text of a decided game. */
  function VerdictText(v: Verdict): string
    requires !v.Undecided?
  {
    if v.Won? then MarkName(v.winner) + " Dominates!" else "Gridlock!"
  }

  /** The `gameOver` message `checkGameEnd` sends, if the game is decided and
      the channel is usable (online mode with an open connection). */
  function Announcement(v: Verdict, live: bool): (r: seq<Message>)
    ensures |r| <= 1
    ensures |r| == 1 <==> live && !v.Undecided?
    ensures |r| == 1 ==>
      r[0].GameOverMsg? && r[0].text == (if v.Won? then MarkName(v.winner) + " Dominates!" else "Gridlock!")
  {
    if live && !v.Undecided? then [GameOverMsg(VerdictText(v))] else []
  }

  /** After `mover` plays cell `i` in alternating play that X started, the mark
      counts let `checkGameEnd` recover the mover, so its verdict is exactly
      the local rules' verdict for the mover. */
  lemma EndVerdictFindsMover(b: Board, i: Index, mover: Mark)
    requires b[i] == Empty
    requires Count(b, Marked(X)) == Count(b, Marked(O)) + (if mover == X then 0 else 1)
    ensures LastPlayer(b[i := Marked(mover)]) == mover
    ensures EndVerdict(b[i := Marked(mover)]) == LocalVerdict(b[i := Marked(mover)], mover)
  {
    CountUpdate(b, i, Marked(mover), Marked(X));
    CountUpdate(b, i, Marked(mover), Marked(O));
  }

  /** The hot-seat invariant: X has as many marks as O when X is to move in a
      live game (or O moved last in a finished one), one more otherwise; and a
      live game has no line and a free cell. */
  ghost predicate Consistent(b: Board, xNext: bool, active: bool) {
    Count(b, Marked(X)) == Count(b, Marked(O)) + (if xNext == active then 0 else 1)
    && (active ==> !CheckWin(b, X) && !CheckWin(b, O) && !IsFull(b))
  }

  lemma EmptyBoardConsistent()
    ensures Consistent(EmptyBoard, true, true)
  {
    assert EmptyBoard[0] == Empty;
    CountToZero(EmptyBoard, Marked(X), 9);
    CountToZero(EmptyBoard, Marked(O), 9);
  }

  /** A legal local move (live game, empty cell) keeps the invariant: the turn
      passes when the game goes on, and stays with the mover when it ends. */
  lemma LocalMoveKeepsConsistent(b: Board, i: Index, xNext: bool)
    requires Consistent(b, xNext, true) && b[i] == Empty
    ensures var mover := Turn(xNext);
            var after := b[i := Marked(mover)];
            var v := LocalVerdict(after, mover);
            Consistent(after, if v.Undecided? then !xNext else xNext, v.Undecided?)
  {
    var mover := Turn(xNext);
    var after := b[i := Marked(mover)];
    CountUpdate(b, i, Marked(mover), Marked(X));
    CountUpdate(b, i, Marked(mover), Marked(O));
    PlacingKeepsOtherWins(b, i, mover);
    assert Other(mover) == Turn(!xNext);
    if LocalVerdict(after, mover).Undecided? {
      assert !CheckWin(after, mover);
      assert !CheckWin(after, Other(mover));
    }
  }

  /** In a consistent live game the remote end test agrees with the local one. */
  lemma ConsistentEndVerdict(b: Board, i: Index, xNext: bool)
    requires Consistent(b, xNext, true) && b[i] == Empty
    ensures EndVerdict(b[i := Marked(Turn(xNext))]) == LocalVerdict(b[i := Marked(Turn(xNext))], Turn(xNext))
  {
    EndVerdictFindsMover(b, i, Turn(xNext));
  }

  /** The role a participant holds after trying to move: an existing role is
      kept; an unassigned one becomes X on a blank board and O otherwise. */
  function RoleAfterAttempt(role: Option<Mark>, b: Board): Mark {
    if role.Some? then role.value else if IsBlank(b) then X else O
  }

  /** Whether `handleOnlineMove` places a mark: the attempt must not be the one
      that assigns O, and the (new) role must be the mark whose turn it is. */
  predicate MoveAccepted(role: Option<Mark>, b: Board, xNext: bool) {
    (role.Some? || IsBlank(b)) && RoleAfterAttempt(role, b) == Turn(xNext)
  }

  /** First contact on a blank board makes the mover X, and the move goes
      through exactly when it is X's turn; first contact on a non-blank board
      makes the mover O and places nothing; with a role, the move goes through
      exactly on that role's turn. */
  lemma RoleAssignment(role: Option<Mark>, b: Board, xNext: bool)
    ensures role.None? && IsBlank(b) ==>
      RoleAfterAttempt(role, b) == X && (MoveAccepted(role, b, xNext) <==> xNext)
    ensures role.None? && !IsBlank(b) ==>
      RoleAfterAttempt(role, b) == O && !MoveAccepted(role, b, xNext)
    ensures role.Some? ==> (MoveAccepted(role, b, xNext) <==> role.value == Turn(xNext))
  {
  }

  /** `syncBoard`'s throttle: send only on an open channel and more than 500 ms
      after the last sync that was sent. */
  predicate SyncDue(open: bool, lastSync: int, now: int) {
    open && now - lastSync > 500
  }

  /** The `lastSyncTime` after a `syncBoard` call at time `now`. */
  function LastSyncAfter(open: bool, lastSync: int, now: int): int {
    if SyncDue(open, lastSync, now) then now else lastSync
  }

  /** Two `syncBoard` calls at most 500 ms apart send at most one message. */
  lemma SyncThrottle(open: bool, lastSync: int, t1: int, t2: int)
    requires t2 - t1 <= 500
    ensures !(SyncDue(open, lastSync, t1) && SyncDue(open, LastSyncAfter(open, lastSync, t1), t2))
  {
  }

  const PinAlphabet: string := "ABCDEFGHIJKLMNOPQRSTUVWXYZ0123456789"

  /** `generatePinCode`: six characters, the i-th being the alphabet letter
      at the i-th random pick. */
  method GeneratePinCode(picks: seq<nat>) returns (pin: string)
    requires |picks| == 6
    requires forall i :: 0 <= i < 6 ==> picks[i] < |PinAlphabet|
    ensures |pin| == 6
    ensures forall i :: 0 <= i < 6 ==> pin[i] == PinAlphabet[picks[i]]
    ensures forall i :: 0 <= i < |pin| ==> pin[i] in PinAlphabet
  {
    pin := "";
    for i := 0 to 6
      invariant |pin| == i
      invariant forall j :: 0 <= j < i ==> pin[j] == PinAlphabet[picks[j]]
    {
      pin := pin + [PinAlphabet[picks[i]]];
    }
  }
}
