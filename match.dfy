/** The match controller: the game's global state as one object, and the
    handlers that change it (cell clicks, the computer's move, peer messages,
    timers, resets). */
module Match {
  import opened Wrappers
  import opened Board
  import opened Opponent
  import opened Protocol

  class Game {
    /** The live `board`. The source sometimes rebinds `board` to a new array;
        here its nine cells are overwritten instead. */
    const board: array<Cell>
    var isXNext: bool
    var gameActive: bool
    var isPaused: bool
    var isAIMode: bool
    var isOnlineMode: bool
    var difficulty: Difficulty
    /** `playerSymbol`: this participant's role online, `null` until assigned. */
    var playerSymbol: Option<Mark>
    /** `peer` is non-null (`peer.destroy()` does not reset the variable). */
    var peerCreated: bool
    /** `conn && conn.open`. */
    var connOpen: bool
    /** Moves made while the channel was not open (never drained here). */
    var moveQueue: seq<Message>
    var lastSyncTime: int
    /** `gameEndTimeout` holds a pending auto-reset timer. */
    var resetPending: bool
    /** Every message passed to `conn.send`, in order. */
    var sent: seq<Message>
    /** Chat messages shown in the chat panel. */
    var chatLog: seq<string>

    ghost predicate Valid() { board.Length == 9 }

    function Cells(): Board
      reads board
      requires Valid()
    {
      board[..]
    }

    /** The local-play invariant (see `Protocol.Consistent`). */
    ghost predicate HotSeat()
      reads this`isXNext, this`gameActive, board
      requires Valid()
    {
      Consistent(Cells(), isXNext, gameActive)
    }

    /** The initial values of the game's globals. */
    constructor ()
      ensures Valid() && fresh(board)
      ensures Cells() == EmptyBoard
      ensures isXNext && gameActive && !isPaused
      ensures !isAIMode && !isOnlineMode && difficulty == Beginner
      ensures playerSymbol.None? && !peerCreated && !connOpen
      ensures moveQueue == [] && lastSyncTime == 0 && !resetPending
      ensures sent == [] && chatLog == []
      ensures HotSeat()
    {
      board := new Cell[9](_ => Empty);
      isXNext, gameActive, isPaused := true, true, false;
      isAIMode, isOnlineMode, difficulty := false, false, Beginner;
      playerSymbol, peerCreated, connOpen := None, false, false;
      moveQueue, lastSyncTime, resetPending := [], 0, false;
      sent, chatLog := [], [];
      new;
      assert board[..] == EmptyBoard;
      EmptyBoardConsistent();
    }

    /** Replaces the nine cells with `snapshot` (`board = ...`). */
    method Load(snapshot: Board)
      requires Valid()
      modifies board
      ensures Cells() == snapshot
    {
      forall i | 0 <= i < 9 {
        board[i] := snapshot[i];
      }
      assert board[..] == snapshot;
    }

    /** `scheduleAutoReset`: any pending reset is replaced by a new one, so
        exactly one is pending afterwards. */
    method ScheduleAutoReset()
      modifies this`resetPending
      ensures resetPending
    {
      resetPending := true;
    }

    /** The opening common to `clearGrid` and `restartGame`: cancel the pending
        reset, revive and unpause the game, blank the board. */
    method Revive()
      requires Valid()
      modifies this`resetPending, this`gameActive, this`isPaused, board
      ensures Cells() == EmptyBoard && gameActive && !isPaused && !resetPending
    {
      resetPending := false;
      gameActive := true;
      isPaused := false;
      Load(EmptyBoard);
    }

    /** `clearGrid`. */
    method ClearGrid()
      requires Valid()
      modifies this`resetPending, this`gameActive, this`isPaused, this`isXNext, board
      ensures Cells() == EmptyBoard && gameActive && !isPaused && isXNext && !resetPending
      ensures HotSeat()
    {
      Revive();
      isXNext := true;  // both branches of the online-mode test set it
      EmptyBoardConsistent();
    }

    /** The auto-reset timer fires: clear the grid and, online with an open
        channel, tell the peer. */
    method AutoResetElapsed()
      requires Valid() && resetPending
      modifies this`resetPending, this`gameActive, this`isPaused, this`isXNext, this`sent, board
      ensures Cells() == EmptyBoard && gameActive && !isPaused && isXNext && !resetPending
      ensures sent == old(sent) + (if isOnlineMode && connOpen then [ClearMsg(EmptyBoard)] else [])
      ensures HotSeat()
    {
      ClearGrid();
      if isOnlineMode && connOpen {
        sent := sent + [ClearMsg(EmptyBoard)];
      }
    }

    /** `restartGame`. Online with a peer it keeps `isXNext` and the role, clears
        the chat and sends the blank board as a `sync`; otherwise X moves next. */
    method RestartGame()
      requires Valid()
      modifies this`resetPending, this`gameActive, this`isPaused, this`isXNext
      modifies this`moveQueue, this`chatLog, this`sent, board
      ensures Cells() == EmptyBoard && gameActive && !isPaused && !resetPending && moveQueue == []
      ensures isOnlineMode && peerCreated ==>
        isXNext == old(isXNext) && chatLog == []
        && sent == old(sent) + (if connOpen then [SyncMsg(EmptyBoard)] else [])
      ensures !(isOnlineMode && peerCreated) ==>
        isXNext && chatLog == old(chatLog) && sent == old(sent) && HotSeat()
    {
      Revive();
      moveQueue := [];
      if isOnlineMode && peerCreated {
        chatLog := [];
        if connOpen {
          sent := sent + [SyncMsg(Cells())];
        }
      } else {
        isXNext := true;
        EmptyBoardConsistent();
      }
    }

    /** `syncBoard(now)`: throttled full-board sync. */
    method SyncBoard(now: int)
      requires Valid()
      modifies this`sent, this`lastSyncTime
      ensures lastSyncTime == LastSyncAfter(connOpen, old(lastSyncTime), now)
      ensures sent == old(sent) + (if SyncDue(connOpen, old(lastSyncTime), now) then [SyncMsg(Cells())] else [])
    {
      if connOpen && now - lastSyncTime > 500 {
        sent := sent + [SyncMsg(Cells())];
        lastSyncTime := now;
      }
    }

    /** `checkGameEnd`: the last player is the one with more marks (O on a tie);
        a win of theirs, or else a full board, ends the game, is announced to
        the peer when online with an open channel, and schedules a reset. */
    method CheckGameEnd()
      requires Valid()
      modifies this`sent, this`gameActive, this`resetPending
      ensures var v := EndVerdict(Cells());
        sent == old(sent) + Announcement(v, isOnlineMode && connOpen)
        && gameActive == (old(gameActive) && v.Undecided?)
        && resetPending == (old(resetPending) || !v.Undecided?)
    {
      var lastPlayer := LastPlayer(Cells());
      if CheckWin(Cells(), lastPlayer) {
        if isOnlineMode && connOpen {
          sent := sent + [GameOverMsg(MarkName(lastPlayer) + " Dominates!")];
        }
        gameActive := false;
        ScheduleAutoReset();
      } else if IsFull(Cells()) {
        if isOnlineMode && connOpen {
          sent := sent + [GameOverMsg("Gridlock!")];
        }
        gameActive := false;
        ScheduleAutoReset();
      }
    }

    /** What `handleLocalMove(index)` does: the mover's mark goes into the cell;
        a win or a full board ends the game with the turn left on the mover and
        a reset pending; otherwise the turn passes, and `aiTurn` says whether the
        computer's move is to be scheduled. Nothing else changes. */
    twostate predicate LocalApplied(index: Index, aiTurn: bool)
      reads this, board
      requires Valid()
    {
      var mover := Turn(old(isXNext));
      var after := old(Cells())[index := Marked(mover)];
      var v := LocalVerdict(after, mover);
      Cells() == after
      && (if v.Undecided? then
            isXNext == !old(isXNext) && gameActive == old(gameActive)
            && resetPending == old(resetPending) && aiTurn == (isAIMode && !isXNext)
          else
            isXNext == old(isXNext) && !gameActive && resetPending && !aiTurn)
      && isPaused == old(isPaused) && playerSymbol == old(playerSymbol)
      && sent == old(sent) && moveQueue == old(moveQueue)
    }

    /** What `handleOnlineMove(index)` does once its guards pass: the role is
        assigned if need be; an accepted move writes the role's mark into the
        cell, passes the turn, sends the new board (or queues it when the
        channel is not open) and runs the end-of-game test; a refused one
        changes nothing but the role. */
    twostate predicate OnlineApplied(index: Index)
      reads this, board
      requires Valid()
    {
      var before := old(Cells());
      var role := RoleAfterAttempt(old(playerSymbol), before);
      playerSymbol == Some(role) && isPaused == old(isPaused)
      && if MoveAccepted(old(playerSymbol), before, old(isXNext)) then
           var after := before[index := Marked(role)];
           var v := EndVerdict(after);
           Cells() == after && isXNext == !old(isXNext)
           && gameActive == (old(gameActive) && v.Undecided?)
           && resetPending == (old(resetPending) || !v.Undecided?)
           && (if connOpen then
                 sent == old(sent) + [MoveMsg(after)] + Announcement(v, isOnlineMode)
                 && moveQueue == old(moveQueue)
               else
                 sent == old(sent) && moveQueue == old(moveQueue) + [MoveMsg(after)])
         else
           Cells() == before && isXNext == old(isXNext) && gameActive == old(gameActive)
           && resetPending == old(resetPending) && sent == old(sent) && moveQueue == old(moveQueue)
    }

    /** `handleLocalMove(index)`; its only caller has checked that the game is
        live, not paused, and the cell empty. */
    method HandleLocalMove(index: Index) returns (aiTurn: bool)
      requires Valid()
      modifies this`gameActive, this`resetPending, this`isXNext, board
      ensures LocalApplied(index, aiTurn)
    {
      var currentSymbol := Turn(isXNext);
      board[index] := Marked(currentSymbol);
      assert Cells() == old(Cells())[index := Marked(currentSymbol)];
      aiTurn := false;
      if CheckWin(Cells(), currentSymbol) {
        gameActive := false;
        ScheduleAutoReset();
        return;
      }
      if IsFull(Cells()) {
        gameActive := false;
        ScheduleAutoReset();
        return;
      }
      isXNext := !isXNext;
      aiTurn := isAIMode && !isXNext;
    }

    /** The accepted half of `handleOnlineMove`: `role` is placed at `index`,
        the turn passes, the new board is sent (or queued when the channel is
        not open) and the end-of-game test runs. */
    method PlaceOnline(index: Index, role: Mark)
      requires Valid()
      modifies this`gameActive, this`resetPending, this`isXNext, this`sent, this`moveQueue, board
      ensures var after := old(Cells())[index := Marked(role)];
        var v := EndVerdict(after);
        Cells() == after && isXNext == !old(isXNext)
        && gameActive == (old(gameActive) && v.Undecided?)
        && resetPending == (old(resetPending) || !v.Undecided?)
        && (if connOpen then
              sent == old(sent) + [MoveMsg(after)] + Announcement(v, isOnlineMode)
              && moveQueue == old(moveQueue)
            else
              sent == old(sent) && moveQueue == old(moveQueue) + [MoveMsg(after)])
    {
      board[index] := Marked(role);
      assert Cells() == old(Cells())[index := Marked(role)];
      isXNext := !isXNext;
      if connOpen {
        sent := sent + [MoveMsg(Cells())];
        // `processMoveQueue()` is called here but defined nowhere in the source.
      } else {
        moveQueue := moveQueue + [MoveMsg(Cells())];
      }
      CheckGameEnd();
    }

    /** `handleOnlineMove(index)`. */
    method HandleOnlineMove(index: Index)
      requires Valid()
      modifies this`gameActive, this`resetPending, this`isXNext, this`playerSymbol
      modifies this`sent, this`moveQueue, board
      ensures old(!gameActive || isPaused || board[index] != Empty) ==> unchanged(this) && unchanged(board)
      ensures old(gameActive && !isPaused && board[index] == Empty) ==> OnlineApplied(index)
    {
      if !gameActive || isPaused || board[index] != Empty {
        return;
      }
      var isFirstMove := IsBlank(Cells());
      if isFirstMove && playerSymbol.None? {
        playerSymbol := Some(X);
      } else if playerSymbol.None? {
        playerSymbol := Some(O);
        return;
      }
      var expectedSymbol := Turn(isXNext);
      if playerSymbol.value != expectedSymbol {
        return;
      }
      PlaceOnline(index, playerSymbol.value);
    }

    /** `drawSymbol`: a click on cell `index`. Ignored when the game is over or
        paused or the cell is taken; otherwise an online or a local move. */
    method DrawSymbol(index: Index) returns (aiTurn: bool)
      requires Valid()
      modifies this`gameActive, this`resetPending, this`isXNext, this`playerSymbol
      modifies this`sent, this`moveQueue, board
      ensures old(!gameActive || isPaused || board[index] != Empty) ==>
        unchanged(this) && unchanged(board) && !aiTurn
      ensures old(gameActive && !isPaused && board[index] == Empty) ==>
        if isOnlineMode then OnlineApplied(index) && !aiTurn else LocalApplied(index, aiTurn)
      ensures !isOnlineMode && old(HotSeat()) ==> HotSeat()
    {
      aiTurn := false;
      if !gameActive || isPaused {
        return;
      }
      if board[index] != Empty {
        return;
      }
      if isOnlineMode {
        HandleOnlineMove(index);
      } else {
        if HotSeat() {
          LocalMoveKeepsConsistent(Cells(), index, isXNext);
        }
        aiTurn := HandleLocalMove(index);
      }
    }

    /** `makeAIMove`: when the game is live and unpaused and some cell is empty,
        the computer picks a cell for O by the difficulty and clicks it.
        `pick` stands for the random index into the empty cells. */
    method MakeAIMove(pick: nat) returns (chosen: Option<Index>, aiTurn: bool)
      requires Valid()
      requires |EmptyCells(Cells())| > 0 ==> pick < |EmptyCells(Cells())|
      modifies this`gameActive, this`resetPending, this`isXNext, this`playerSymbol
      modifies this`sent, this`moveQueue, board
      ensures old(!gameActive || isPaused || |EmptyCells(Cells())| == 0) ==>
        chosen.None? && !aiTurn && unchanged(this) && unchanged(board)
      ensures old(gameActive && !isPaused && |EmptyCells(Cells())| > 0) ==>
        chosen.Some? && old(board[chosen.value]) == Empty
        && (old(difficulty) == Beginner ==> chosen.value == old(EmptyCells(Cells())[pick]))
        && (old(difficulty) == Amateur ==>
              chosen.value == old(AmateurFrom(Cells(), EmptyCells(Cells()), pick, 0)))
        && (old(difficulty) == Pro ==>
              (forall j: Index :: old(board[j]) == Empty ==>
                 old(MoveValue(Cells(), j, O)) <= old(MoveValue(Cells(), chosen.value, O)))
              && (forall j: Index :: j < chosen.value && old(board[j]) == Empty ==>
                 old(MoveValue(Cells(), j, O)) < old(MoveValue(Cells(), chosen.value, O))))
        && if isOnlineMode then OnlineApplied(chosen.value) && !aiTurn
           else LocalApplied(chosen.value, aiTurn)
    {
      chosen, aiTurn := None, false;
      if !gameActive || isPaused {
        return;
      }
      var empties := EmptyCells(Cells());
      if |empties| == 0 {
        return;
      }
      ghost var before := Cells();
      var move: Index;
      match difficulty {
        case Pro =>
          move := GetBestMove(board, empties, O, true, pick);
          FirstBestInIndexOrder(before, O, move);
        case Amateur =>
          move := GetBestMove(board, empties, O, false, pick);
        case Beginner =>
          move := empties[pick];
      }
      chosen := Some(move);
      aiTurn := DrawSymbol(move);
    }

    /** The pause button: ignored once the game is over, otherwise flips
        `isPaused`. */
    method TogglePause()
      modifies this`isPaused
      ensures isPaused == (if old(gameActive) then !old(isPaused) else old(isPaused))
    {
      if !gameActive {
        return;
      }
      isPaused := !isPaused;
    }

    /** `handleConnectionData(msg)`: while the game is over only `clear` and
        `gameOver` get through. A `move` replaces the board, passes the turn and
        runs the end-of-game test; `sync` replaces the board; `clear` also
        revives the game with X to move (a pending reset stays pending);
        `gameOver` ends the game and schedules a reset; `chat` is shown. */
    method HandleConnectionData(msg: Message)
      requires Valid()
      modifies this`gameActive, this`resetPending, this`isXNext, this`isPaused
      modifies this`sent, this`chatLog, board
      ensures !old(gameActive) && !msg.ClearMsg? && !msg.GameOverMsg? ==>
        unchanged(this) && unchanged(board)
      ensures old(gameActive) || msg.ClearMsg? || msg.GameOverMsg? ==>
        match msg
        case MoveMsg(b) =>
          var v := EndVerdict(b);
          Cells() == b && isXNext == !old(isXNext) && isPaused == old(isPaused)
          && sent == old(sent) + Announcement(v, isOnlineMode && connOpen)
          && gameActive == (old(gameActive) && v.Undecided?)
          && resetPending == (old(resetPending) || !v.Undecided?)
          && chatLog == old(chatLog)
        case SyncMsg(b) =>
          Cells() == b && unchanged(this)
        case ClearMsg(b) =>
          Cells() == b && gameActive && !isPaused && isXNext
          && resetPending == old(resetPending) && sent == old(sent) && chatLog == old(chatLog)
        case GameOverMsg(_) =>
          !gameActive && resetPending && unchanged(board)
          && isXNext == old(isXNext) && isPaused == old(isPaused)
          && sent == old(sent) && chatLog == old(chatLog)
        case ChatMsg(text) =>
          chatLog == old(chatLog) + [text] && unchanged(board)
          && gameActive == old(gameActive) && resetPending == old(resetPending)
          && isXNext == old(isXNext) && isPaused == old(isPaused) && sent == old(sent)
        case Unrecognized =>
          unchanged(this) && unchanged(board)
    {
      if !gameActive && !msg.ClearMsg? && !msg.GameOverMsg? {
        return;
      }
      match msg {
        case MoveMsg(b) =>
          Load(b);
          isXNext := !isXNext;
          CheckGameEnd();
        case ChatMsg(text) =>
          chatLog := chatLog + [text];
        case SyncMsg(b) =>
          Load(b);
        case ClearMsg(b) =>
          Load(b);
          gameActive := true;
          isPaused := false;
          isXNext := true;
        case GameOverMsg(_) =>
          gameActive := false;
          ScheduleAutoReset();
        case Unrecognized =>
      }
    }

    /** The channel's `open` event at time `now`: the game is revived and the
        board is offered to the peer through the throttled sync. */
    method ChannelOpened(now: int)
      requires Valid()
      modifies this`connOpen, this`gameActive, this`sent, this`lastSyncTime
      ensures connOpen && gameActive
      ensures lastSyncTime == LastSyncAfter(true, old(lastSyncTime), now)
      ensures sent == old(sent) + (if SyncDue(true, old(lastSyncTime), now) then [SyncMsg(Cells())] else [])
    {
      connOpen := true;
      gameActive := true;
      SyncBoard(now);
      // `processMoveQueue()` is called here but defined nowhere in the source.
    }

    /** The channel's `close` event: the game stops. */
    method ChannelClosed()
      modifies this`connOpen, this`gameActive
      ensures !connOpen && !gameActive
    {
      connOpen := false;
      gameActive := false;
    }

    /** A new channel, not yet open, replaces `conn`: an incoming `connection`,
        or the join button with a code once a peer exists. */
    method ChannelAttached()
      modifies this`connOpen
      ensures !connOpen
    {
      connOpen := false;
    }

    /** The join button: needs a non-empty code and an existing peer. */
    method Join(codeGiven: bool)
      modifies this`connOpen
      ensures connOpen == (old(connOpen) && !(codeGiven && peerCreated))
    {
      if !codeGiven || !peerCreated {
        return;
      }
      ChannelAttached();
    }

    /** The generate-code button: with the peer library present a new peer is
        created (the previous one, if any, is destroyed). */
    method CreatePeer(libraryLoaded: bool)
      modifies this`peerCreated
      ensures peerCreated == (old(peerCreated) || libraryLoaded)
    {
      if !libraryLoaded {
        return;
      }
      peerCreated := true;
    }

    /** The peer's `open` event. */
    method PeerOpened()
      modifies this`gameActive
      ensures gameActive
    {
      gameActive := true;
    }

    /** `toggleMultiplayerControls`: forget the role and the channel, then
        `clearGrid`. The `peer` variable keeps its (destroyed) peer. */
    method ToggleMultiplayerControls()
      requires Valid()
      modifies this`playerSymbol, this`connOpen
      modifies this`resetPending, this`gameActive, this`isPaused, this`isXNext, board
      ensures playerSymbol.None? && !connOpen
      ensures Cells() == EmptyBoard && gameActive && !isPaused && isXNext && !resetPending
      ensures HotSeat()
    {
      playerSymbol := None;
      connOpen := false;
      ClearGrid();
    }

    /** The first half of a mode choice: set the two mode flags and reset
        the multiplayer controls. */
    method SwitchMode(mode: Mode)
      requires Valid()
      modifies this`isAIMode, this`isOnlineMode, this`playerSymbol, this`connOpen
      modifies this`resetPending, this`gameActive, this`isPaused, this`isXNext, board
      ensures isAIMode == (mode == Computer) && isOnlineMode == (mode == Online)
      ensures playerSymbol.None? && !connOpen && isXNext
      ensures Cells() == EmptyBoard && gameActive && !isPaused && !resetPending && HotSeat()
    {
      isAIMode := mode == Computer;
      isOnlineMode := mode == Online;
      ToggleMultiplayerControls();
    }

    /** A mode choice: sets the two mode flags, resets the multiplayer
        controls, and restarts. The peer that is kept makes a later restart in
        online mode take the online branch. */
    method SelectMode(mode: Mode)
      requires Valid()
      modifies this`isAIMode, this`isOnlineMode, this`playerSymbol, this`connOpen
      modifies this`resetPending, this`gameActive, this`isPaused, this`isXNext
      modifies this`moveQueue, this`chatLog, this`sent, board
      ensures isAIMode == (mode == Computer) && isOnlineMode == (mode == Online)
      ensures playerSymbol.None? && !connOpen && isXNext
      ensures Cells() == EmptyBoard && gameActive && !isPaused && !resetPending && moveQueue == []
      ensures sent == old(sent)
      ensures chatLog == if isOnlineMode && peerCreated then [] else old(chatLog)
      ensures HotSeat()
    {
      SwitchMode(mode);
      RestartGame();
      EmptyBoardConsistent();
    }

    /** A difficulty choice: restarts only in computer mode. */
    method SelectDifficulty(d: Difficulty)
      requires Valid()
      modifies this`difficulty
      modifies this`resetPending, this`gameActive, this`isPaused, this`isXNext
      modifies this`moveQueue, this`chatLog, this`sent, board
      ensures difficulty == d
      ensures !old(isAIMode) ==> unchanged(board) && unchanged(this`resetPending, this`gameActive,
        this`isPaused, this`isXNext, this`moveQueue, this`chatLog, this`sent)
      ensures old(isAIMode) ==>
        Cells() == EmptyBoard && gameActive && !isPaused && !resetPending && moveQueue == []
      ensures old(isAIMode) && isOnlineMode && peerCreated ==>
        isXNext == old(isXNext) && chatLog == []
        && sent == old(sent) + (if connOpen then [SyncMsg(EmptyBoard)] else [])
      ensures old(isAIMode) && !(isOnlineMode && peerCreated) ==>
        isXNext && chatLog == old(chatLog) && sent == old(sent) && HotSeat()
    {
      difficulty := d;
      if isAIMode {
        RestartGame();
      }
    }
  }
}
