# xowars tic-tac-toe: a Dafny model of the game engine

This project models the engine of a browser tic-tac-toe game, `script.js`. The engine has three parts:

- **Rules.** The eight winning combinations, `checkWin`, the full-board test and the end-of-game test.
- **Computer opponent.** `minimax`, which works in place on the board and restores it. `getBestMove`, with its pro and amateur branches. The random beginner move.
- **Match controller and peer protocol.** One object holds the game's globals: `board`, `isXNext`, `gameActive`, `isPaused`, the mode flags, `aiDifficulty`, `playerSymbol`, `moveQueue`, `lastSyncTime` and `gameEndTimeout`. The handlers update them on clicks, the computer's move, inbound peer messages, the auto-reset timer, restarts and mode changes.

The model is organised in modules:

- `Board` (`board.dfy`): marks, cells and the 9-cell board. It holds the winning lines and `CheckWin` with a reference definition (`HasLine`), plus cell counts and the ordered list of empty cells.
- `Opponent` (`opponent.dfy`): the minimax score as a function (`Score`) and `Minimax` as a method on the live `array`. Also `ProMove`, `AmateurMove` and `GetBestMove`.
- `Protocol` (`protocol.dfy`): wire messages, the two end-of-game verdicts and the hot-seat consistency invariant. Also role assignment, the sync throttle and the session code.
- `Match` (`match.dfy`): class `Game`, one field per global and one method per handler.
- `Scenarios` (`scenarios.dfy`): whole matches played through the handlers, and two peers kept in step.

External inputs become parameters:

- **Randomness.** `Math.random` is a `pick` index (the beginner move, the amateur fallback) or a sequence of picks (the session code).
- **Time.** `Date.now()` is a `now` argument.
- **Channel state.** `conn && conn.open` is the field `connOpen`.
- **Pending reset.** The pending `gameEndTimeout` is the flag `resetPending`. A timer firing is a separate handler call, `AutoResetElapsed`.
- **Sent messages.** Every `conn.send` appends to the field `sent`.

Some behaviours of the code that are easy to miss:

- **Roles survive a clear.** `clearGrid` and `restartGame` never touch `playerSymbol`; only `toggleMultiplayerControls` forgets it.
- **Online restart keeps the turn.** `restartGame` with a peer in online mode keeps `isXNext`; only the other branch sets it to X.
- **Destroying a peer keeps the variable.** `peer.destroy()` does not null the `peer` variable, so a later online restart still takes the online branch.

The play X:4, O:0, X:1, O:2, X:7 ends in a win for X on the middle column 1-4-7 (`Scenarios.MiddleColumnWins`).

In `minimax`, the `checkWin` calls read the global `board`, not the parameter. The function is only ever passed the global board, so the model scores the one array.

## Model

| member | source | states |
|---|---|---|
| Board.Lines | script.js:49-53 | The eight winning combinations: three rows, three columns, two diagonals, in the source's order. |
| Board.CheckWinFrom | script.js:459-463 | Definition: the `some`/`every` scan of the combinations from the `k`-th on; its meaning is `Board.CheckWinFromSpec`. |
| Board.CheckWin | script.js:459-463 | Definition: `checkWin(symbol)`; its meaning is `Board.CheckWinSpec`. |
| Board.IsFull | script.js:333 | Definition: `board.every(cell => cell)`; related to the empty count by `Board.FullIffNoEmpty`. |
| Board.IsBlank | script.js:282 | Definition: `board.every(cell => !cell)`, the first-move test of the online handler. |
| Board.Turn | script.js:293 | Definition: the mark to move, `isXNext ? "X" : "O"` (also at line 320); used by `Match.Game.HandleLocalMove` and `Protocol.RoleAssignment`. |
| Board.CountTo | script.js:467-468 | Definition: the number of cells from index `n` on that hold a given value; its meaning under one write is `Board.CountUpdate`. |
| Board.Count | script.js:467-468 | Definition: `board.filter(cell => cell === c).length`; its change under one write is `Board.CountUpdate`, and its zero count of empty cells is the full-board test by `Board.FullIffNoEmpty`. |
| Board.CheckWinSpec | script.js:459-463 | `checkWin(m)` holds exactly when one of the eight fixed combinations has all three cells equal to `m` (both directions). |
| Board.CheckWinFromSpec | script.js:459-463 | The scan from combination `k` on succeeds exactly when some combination at or after `k` is complete (induction over the list). |
| Board.CheckWinOneLineOneMark | script.js:459-463 | On a board with a complete X line and no complete O line, `checkWin("X")` is true and `checkWin("O")` is false. |
| Board.CheckWinExample | script.js:49-53 | On the board X,X,X / O,O,_ / _,_,_ the test is true for X and false for O. |
| Board.PlacingKeepsOtherWins | script.js:459-463 | Placing `m` in a cell never creates a win for the other mark. |
| Board.CountUpdate | script.js:467-468 | Writing one cell changes the count of a cell value by at most one, exactly as the old and new contents say. |
| Board.FullIffNoEmpty | script.js:333 | `board.every(cell => cell)` (also at lines 431 and 479) holds exactly when no cell is empty. |
| Board.EmptyCells | script.js:366 | Definition: the indices `i` with `!board[i]`, in index order; its meaning is `Board.EmptiesBelow`. |
| Board.EmptiesBelow | script.js:366 | The empty-cell list (`filter` on `!board[i]`) holds exactly the empty indices, in increasing order, and its length is the number of empty cells. |
| Opponent.Score | script.js:428-456 | Definition of the minimax value: the three terminal tests, then the best child for the mover. Its bounds and terminal values are `Opponent.ScoreBounds` and `Opponent.ScoreAtTerminal`; `Opponent.Minimax` is proved to compute it. |
| Opponent.Mover | script.js:437-448 | Definition: the mark minimax places, O when maximizing and X when minimizing; its effect on the score is `Opponent.ScoreBounds` and `Opponent.ScoreAtTerminal`. |
| Opponent.Extreme | script.js:433-455 | Folding `Math.max` (or `Math.min`) over a non-empty list of scores gives a member of the list that is not below (or not above) any member. |
| Opponent.Children | script.js:435-453 | One child score per empty cell, so an open board yields a non-empty list. |
| Opponent.ScoreAtTerminal | script.js:429-431 | An O line scores `10 - depth`, else an X line scores `depth - 10`, else a full board scores 0. |
| Opponent.ScoreBounds | script.js:428-456 | Every score at depth `d` lies in `[d - 10, 10 - d]` (mutual induction with `ChildrenBounds`). |
| Opponent.ChildrenBounds | script.js:435-453 | Every child score of a position at depth `d` lies in `[d - 9, 9 - d]`. |
| Opponent.ScoreBelowWin | script.js:428-456 | A position where O has no line scores strictly below `10 - depth`. |
| Opponent.MoveValueBounds | script.js:392-393 | The pro branch's score for placing in an empty cell lies in `[-10, 10]`. |
| Opponent.Minimax | script.js:428-456 | Trying each empty cell in index order and undoing it leaves the array as it was, and the result is the recursive minimax score of the original board. |
| Opponent.TryPlacement | script.js:391-394 | One pro-branch trial: the array is restored, and the result is the score of the board with `player` placed at the cell. |
| Opponent.MoveValue | script.js:392-394 | Definition: the pro branch's score of a cell, `minimax` after placing `player` there. Bounded by `Opponent.MoveValueBounds`. |
| Opponent.ProMove | script.js:387-400 | The board is restored. The choice is a listed cell whose score no listed cell beats, and every earlier listed cell scores strictly lower (first best, by the strict `>`). |
| Opponent.FirstBestOfScores | script.js:395-398 | A running maximum updated only on a strict improvement ends at the first best position. |
| Opponent.FirstBestInIndexOrder | script.js:387-400 | Over the game's empty-cell list, the pro choice is an empty cell. Its score is at least every empty cell's, and every smaller empty index scores strictly lower. |
| Opponent.ProTakesImmediateWin | script.js:387-400 | If some listed cell completes a line for O, the pro choice completes one too. |
| Opponent.Completion | script.js:405-410 | Definition: the three per-line checks for one mark, in the order c, b, a. Its meaning is `Opponent.CompletionSpec`. |
| Opponent.AmateurFrom | script.js:402-424 | Definition: the amateur choice, O's completion then X's on each line in order, then the centre, then the random cell. Its properties are the `Amateur…` lemmas. |
| Opponent.AmateurMove | script.js:401-424 | The loop over the combinations returns the amateur choice of the reference function `AmateurFrom`. |
| Opponent.CompletionSpec | script.js:405-410 | The three per-line checks for a mark return a listed cell that completes two of that mark on the line. If they return nothing, no listed cell completes the line. |
| Opponent.AmateurChoosesListed | script.js:401-424 | The amateur choice is always one of the listed empty cells. |
| Opponent.AmateurSkipsQuietLines | script.js:403-417 | Lines with no completing cell for either mark do not affect the choice. |
| Opponent.AmateurAnswersFirstThreat | script.js:403-417 | On the first line with a completing cell, the choice completes that line, for O whenever O can complete it. |
| Opponent.AmateurWithoutThreats | script.js:420-424 | With no completing cell on any line, the choice is the centre if it is empty and listed, and otherwise the randomly picked listed cell. |
| Opponent.AmateurBlocksBeforeWinning | script.js:403-417 | On X,X,_ / O,O,_ / X,_,_ with O to move, the top row comes first in the fixed order, so the amateur blocks X at 2 instead of winning at 5. |
| Opponent.GetBestMove | script.js:387-425 | Both branches return a listed cell and leave the board as it was. The pro branch returns the first best cell; the amateur branch returns the fixed-order choice. |
| Protocol.LocalVerdict | script.js:323-337 | After `mover` plays, the result is a win exactly when `mover` has a line. Otherwise it is a draw exactly when the board is full. |
| Protocol.LastPlayer | script.js:467-469 | Definition: X when X has more marks, otherwise O. `Protocol.EndVerdictFindsMover` shows it is the mark just played. |
| Protocol.MarkName | script.js:473-481 | Definition: the text "X" or "O" of a mark, as interpolated into the `Dominates!` message; its use is stated by `Protocol.Announcement`. |
| Protocol.VerdictText | script.js:473-481 | Definition: "<mark> Dominates!" for a win and "Gridlock!" for a draw; the texts carried by the `gameOver` message are stated by `Protocol.Announcement`. |
| Protocol.EndVerdict | script.js:466-486 | Definition: `checkGameEnd`'s verdict, the last player's win, then the full board. `Protocol.ConsistentEndVerdict` ties it to the mover's own test. |
| Protocol.Announcement | script.js:470-483 | Exactly one message is sent when the game is decided and the channel is live, and none otherwise; it is a `gameOver` carrying "X Dominates!" or "O Dominates!" for the winner, or "Gridlock!" for a draw. |
| Protocol.EndVerdictFindsMover | script.js:466-469 | When counts are in alternation, the count-based last player of `checkGameEnd` is the mark just placed, so both end tests agree. |
| Protocol.EmptyBoardConsistent | script.js:32-44 | The blank board with X to move is a consistent hot-seat state. |
| Protocol.LocalMoveKeepsConsistent | script.js:319-346 | A hot-seat move from a consistent live state yields a consistent state. The turn passes if the game goes on; the game stops otherwise. |
| Protocol.ConsistentEndVerdict | script.js:466-486 | In a consistent live hot-seat state, the end-of-game test after a move agrees with the mover's own test. |
| Protocol.MoveAccepted | script.js:283-297 | Definition: an online attempt places a mark unless it is the one that assigns O, and only on the (new) role's turn. Its properties are `Protocol.RoleAssignment`. |
| Protocol.RoleAssignment | script.js:282-296 | First contact on a blank board makes X, and the move goes through exactly on X's turn. First contact on a marked board makes O and places nothing. With a role, the move goes through exactly on that role's turn. |
| Protocol.RoleAfterAttempt | script.js:283-290 | Definition: the role after a move attempt, X on a blank board with no role, O on a marked board with no role, else the role kept; its meaning is `Protocol.RoleAssignment`. |
| Protocol.SyncDue | script.js:572 | Definition: the sync guard, an open channel and more than 500 ms since the last sync. |
| Protocol.SyncThrottle | script.js:571-576 | Two `syncBoard` calls at most 500 ms apart send at most one message. |
| Protocol.LastSyncAfter | script.js:571-576 | Definition: `lastSyncTime` after one `syncBoard` call, moved to `now` exactly when a sync is sent; its meaning is `Protocol.SyncThrottle` and `Match.Game.SyncBoard`. |
| Protocol.GeneratePinCode | script.js:159-166 | The code has six characters, each the alphabet letter at its random pick, all from the 36-character alphabet. |
| Match.Game.constructor | script.js:32-47 | The initial globals: blank board, X to move, live, unpaused, hot-seat, beginner, no role, no peer, nothing queued or sent. This state is consistent. |
| Match.Game.Load | script.js:230-242 | Replacing the board makes its cells equal the snapshot. |
| Match.Game.ScheduleAutoReset | script.js:349-359 | After scheduling, exactly one reset is pending. |
| Match.Game.Revive | script.js:509-516 | The shared opening of `clearGrid` and `restartGame`: no reset pending, live, unpaused, blank board. |
| Match.Game.ClearGrid | script.js:509-530 | Nine empty cells, live, unpaused, X to move, no reset pending, and a consistent hot-seat state. |
| Match.Game.AutoResetElapsed | script.js:354-358 | The reset clears the grid and sends `clear` with a blank board exactly when online with an open channel. |
| Match.Game.RestartGame | script.js:533-568 | Blank board, live, unpaused, no reset, empty queue. Online with a peer: the turn is kept, the chat is emptied, and a blank `sync` is sent if the channel is open. Otherwise X moves and the state is consistent. |
| Match.Game.SyncBoard | script.js:571-576 | Sends one `sync` with the current board exactly when the throttle allows, and updates `lastSyncTime` accordingly. |
| Match.Game.CheckGameEnd | script.js:466-487 | Applies the count-based verdict. A decided game stops, a reset is scheduled, and the verdict text is sent when online with an open channel. |
| Match.Game.HandleLocalMove | script.js:319-346 | Exactly the chosen cell gets the current mark. On a win or a full board the game stops, the turn is kept and a reset is pending. Otherwise the turn passes, and the computer is asked to move exactly in computer mode on O's turn. |
| Match.Game.PlaceOnline | script.js:299-313 | The role's mark goes into the cell and the turn passes. The new board is sent, or queued when the channel is not open, and the end test follows. |
| Match.Game.HandleOnlineMove | script.js:278-314 | Nothing changes when the game is over, paused or the cell taken. Otherwise the role is assigned, and an accepted move writes exactly one cell, flips the turn and sends or queues exactly one `move` snapshot. A refused one changes only the role. |
| Match.Game.DrawSymbol | script.js:262-275 | A click is ignored when the game is over, paused or the cell occupied. Otherwise it is an online or a local move, and a local move keeps the hot-seat state consistent. |
| Match.Game.MakeAIMove | script.js:363-385 | Nothing happens unless the game is live, unpaused and has an empty cell. Otherwise the chosen cell was empty and follows the difficulty: the random pick, the amateur order, or the first best score in index order. It is then clicked. |
| Match.Game.TogglePause | script.js:591-600 | Pause flips only while the game is live. |
| Match.Game.HandleConnectionData | script.js:225-259 | While inactive only `clear` and `gameOver` act. `move` replaces the board, flips the turn and runs the end test. `sync` replaces only the board. `clear` also revives the game with X to move. `gameOver` stops and schedules a reset. `chat` is only logged. |
| Match.Game.ChannelOpened | script.js:196-204 | The channel opens, the game is live, and the throttled sync runs. |
| Match.Game.ChannelClosed | script.js:210-216 | The channel is closed and the game stops. |
| Match.Game.ChannelAttached | script.js:141-145 | A new, not yet open channel replaces the old one. |
| Match.Game.Join | script.js:169-191 | A channel is attached only with a non-empty code and an existing peer. |
| Match.Game.CreatePeer | script.js:115-157 | A peer exists afterwards exactly when one existed or the library is loaded. |
| Match.Game.PeerOpened | script.js:134-139 | The peer's open event makes the game live. |
| Match.Game.ToggleMultiplayerControls | script.js:101-112 | The role and channel are forgotten and the grid is cleared. |
| Match.Game.SwitchMode | script.js:79-82 | The mode flags follow the choice, the role and channel are dropped, and the grid is cleared by `toggleMultiplayerControls` (script.js:111): blank, live, unpaused, no reset pending, X to move, consistent. |
| Match.Game.SelectMode | script.js:77-89 | The mode flags follow the choice. The role and channel are dropped, and the game restarts with a blank board and X to move, nothing sent. The chat is emptied online with a peer and kept otherwise. |
| Match.Game.SelectDifficulty | script.js:91-98 | The difficulty is set. Outside computer mode nothing else changes. In computer mode the game restarts: blank, live board; online with a peer the turn is kept, the chat emptied and a blank `sync` sent on an open channel; otherwise X moves, chat and sent log are kept, and the state is consistent. |
| Scenarios.WinOpening | script.js:262-346 | Hot-seat X:0, O:3 on a new page leaves the game live with X to move. |
| Scenarios.WinMiddle | script.js:262-346 | Continuing X:1, O:4 leaves both threats on the board, the game live and X to move. |
| Scenarios.HotSeatWin | script.js:319-359 | X:2 then wins the top row for X. The auto-reset leaves a blank, live grid with X to move. |
| Scenarios.DrawBoard | script.js:333-337 | The full board of X:0, O:1, X:2, O:4, X:3, O:5, X:7, O:6, X:8 is a draw under both end tests. |
| Scenarios.MiddleColumnWins | script.js:49-53 | Play X:4, O:0, X:1, O:2, X:7 completes the middle column for X. |
| Scenarios.LockStep | script.js:225-314 | Two peers that agree on the board, the turn and liveness still agree on all three after one peer's accepted move and the other's receipt of its `move` message. Liveness agrees because the sender runs `checkGameEnd` after sending, which holds only if the call to the undefined `processMoveQueue` does not throw (see Left out). |

## Left out

- Presentation: DOM access, status and overlay texts, colours, `updateBoard`, `showWin`, the chat panel's rendering, and `confirm`/`window.close`. None of it decides game state.
- Sound (`playSound`): a cosmetic side effect.
- The PeerJS transport (`new Peer`, `peer.on`, `connect`, `conn.on`, `destroy`, error events) is a foreign networking library. It is reduced to the `connOpen` and `peerCreated` flags, the handler calls that stand for its events, and the `sent` log.
- Destroying a peer closes its channel through the transport's own `close` event, which is the separate `ChannelClosed` handler. `CreatePeer` does not change `connOpen` itself.
- `processMoveQueue` is called at script.js:203 and 309, but is not defined in `script.js`. The model treats each call as doing nothing and never drains `moveQueue`; only `restartGame` empties it. If the name is truly undefined at run time, the call throws, and `checkGameEnd` is skipped after a move sent on an open channel (script.js:307-313). `Match.Game.PlaceOnline` runs that end test.
- Sending chat (`sendChatMessage`) is a UI action on the text field. Inbound chat is kept as `chatLog`.
- Timers: `setTimeout(makeAIMove, 500)`, the auto-reset's 2000 ms and `clearTimeout` become the `aiTurn` result, the `resetPending` flag and explicit `MakeAIMove`/`AutoResetElapsed` calls. Delays and interleavings are not modelled.
- `board` reassignment: the source rebinds `board` to fresh arrays and to received snapshots. The model overwrites the nine cells of one array, so aliasing between the live board and a received or sent array is not modelled.
- Cell contents other than `null`, `"X"` and `"O"` in a received board are not modelled; a `Message` carries a 9-cell `Board`.
- Difficulty values other than `"pro"` and `"amateur"` fall into the `default` case and are modelled as `Beginner`.
- Inbound messages of any other `type` are `Unrecognized` and ignored, as the `switch` has no default.
- Opponent.GetBestMove: the pro branch is not proved never to lose. The model has no definition of a forced loss, so the sign of `Score` carries no game meaning to prove against, and the program does not guarantee it anyway: in computer mode `drawSymbol` (script.js:262-275) has no turn guard, so during the 500 ms before `makeAIMove` (script.js:343-344) the human can place O's mark, and `makeAIMove` then plays X on the cell that was best for O. `Match.Game.DrawSymbol` and `Match.Game.MakeAIMove` keep that behaviour. What is proved about the choice is `Opponent.ScoreBounds`, `Opponent.ProTakesImmediateWin` and `Opponent.FirstBestInIndexOrder`.
- Integer widths do not arise: all scores lie in `[-10, 10]` and times are unbounded integers.
