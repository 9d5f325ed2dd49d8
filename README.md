# Tic-tac-toe: online matches, the computer opponent and the password rules

This project models, in Dafny, the game logic of a small browser tic-tac-toe
application and proves properties of that model. There are three parts.

- **Online matches** (`dash.js`, module `Online`). A match is a record in a
  remote document store. It holds the two players, their names and round
  counters, the board, whose turn it is, the status (waiting, active,
  finished), the winner, and the two "stats already credited" flags. The
  model covers these transitions:
  - creating a match, with its retry loop over random six-digit ids;
  - joining a match;
  - a move, judged by the winner evaluator `checkWinner`;
  - resetting a round;
  - deleting a match;
  - crediting a finished round to each player's profile counters;
  - deriving the player's symbol and the `isGameActive` flag from each snapshot.

  Each remote write is a field-wise change to a `Match` value. The store is a
  class whose `games` and `users` maps those changes update. A remote read is a
  parameter. `Consistent` states what a record looks like between transitions:
  - the marks alternate;
  - a match waits exactly while it has no second player;
  - a finished match records the evaluator's verdict.

  Creating, joining, deleting and crediting are proved to keep every stored
  record consistent. So are resetting a match that is not waiting, and a move
  applied to the record it was computed from.
- **The computer opponent** (`playWComp.js`, modules `Minimax` and
  `LocalGame`).
  - `Value` is the exhaustive minimax search as a function. It is proved to:
    - score terminal positions -10 / +10 / 0, in the source's order;
    - name an empty cell;
    - return the maximum (X) or minimum (O) of the children's scores, with
      ties going to the lowest index.
  - `Search` is the search as written. It marks a scratch array in place and
    undoes each trial mark, and is proved to return `Value` and leave the
    array as it found it.
  - The local game (`LocalGame.Game`) holds the board array, the current
    player and the active flag. Its handlers are methods proved against the
    evaluator predicates in `Board`.
- **The password rules** (`auth.js`, module `Password`).
  - The four rules are: at least eight UTF-16 code units, an A-Z letter, a
    0-9 digit, and one of `@ $ ! % * ? &`.
  - For these rules, the model proves:
    - the live indicators agree with the submit gate;
    - the gate accepts exactly the passwords meeting all four rules;
    - appending to an accepted password keeps it accepted.

`Board` holds what the two games share: cells, the eight winning lines in
their listed order, and mark counts. `Common` holds `Option`.

## Model

| member | source | states |
|---|---|---|
| Board.Other | dash.js:232 | the next player differs from the one who just moved |
| Board.AnyCompleteIsHasLine | playWComp.js:92-96 | some line of three equal marks exists exactly when X or O owns a full line (the two games' win tests agree) |
| Online.FirstComplete | dash.js:219-222 | the scan from line `i` finds nothing exactly when no later line is complete; otherwise it returns the owner of the first complete line |
| Online.CheckWinnerFirstLine | dash.js:217-222 | when line `k` is the first complete line in the listed order, the verdict is a win for the mark in its first cell, and that player owns a line |
| Online.CheckWinnerNoLine | dash.js:223-224 | with no complete line the verdict is a tie on a full board and no result when some cell is empty |
| Online.CheckWinnerWon | dash.js:219-224 | the verdict names a player exactly when some line is complete, and that player owns a line |
| Online.NewGame | dash.js:149-155 | a new match records the creator's id and display name (which may be absent), waits with X to move, has an empty board, no winner, no second player, zero wins and both flags false, and is consistent |
| Online.GameNumber | dash.js:140 | the number from one random draw lies in 100000..999999 |
| Online.DecimalLength | dash.js:140 | a number from 10^(k-1) to 10^k - 1 prints as exactly `k` decimal digits |
| Online.DecimalValue | dash.js:140 | the digits `toString` prints spell the number back |
| Online.GameId | dash.js:140 | a generated id is exactly six decimal digits, and they spell the drawn number |
| Online.JoinUpdate | dash.js:175-179 | joining sets only the second player's id and name and the status active |
| Online.JoinKeepsConsistent | dash.js:171-179 | joining a consistent match with no second player gives a consistent match |
| Online.ResetUpdate | dash.js:315-323 | reset gives an empty board, X to move, status active, no winner, both flags false; players, names and win counters are kept |
| Online.ResetKeepsConsistent | dash.js:315-323 | resetting a consistent active or finished match gives a consistent match |
| Online.TileClick | dash.js:227-241 | a move is sent exactly when the match is active, the cell is empty and it is this player's turn; the sent board differs from the snapshot only at the cell, which holds the player's mark; the turn passes to the other player; the result is the evaluator's verdict on the new board |
| Online.MoveEffect | dash.js:230-242 | an accepted move applied to its snapshot finishes the match exactly when the new board has a verdict; player 1's counter rises by one exactly on an X win and player 2's exactly on an O win, neither on a tie; players, names and flags are unchanged |
| Online.MoveKeepsConsistent | dash.js:227-242 | an accepted move applied to the consistent record it was computed from keeps it consistent |
| Online.WinningMoveExample | dash.js:235-239 | X completing the top row finishes the match with X as winner and raises only player 1's counter |
| Online.HandleGameFinish | dash.js:245-261 | the user's stats are credited exactly when the match is finished and neither seat the user holds has its flag set; the flags of exactly those seats are set |
| Online.StatsAppliedOnce | dash.js:249-261 | once the credited flags are merged, the same handler finds nothing more to do for that player: a round is credited at most once |
| Online.StatsCreditWinner | dash.js:254-259 | crediting adds one game played, and one game won exactly when the user's symbol is the winner |
| Online.FlagsKeepConsistent | dash.js:260-264 | setting stats flags keeps a match consistent |
| Online.MySymbol | dash.js:281 | the user's symbol is X exactly when the user is player 1 |
| Online.IsGameActive | dash.js:280 | the game counts as active exactly when the match is not finished |
| Online.GameStore.MakeGame | dash.js:135-157 | the chosen id is the first draw whose id is not in the store, and the store gains the new-game record under it and nothing else; when every draw collides nothing changes; consistency is kept |
| Online.GameStore.JoinGame | dash.js:160-181 | an empty id, an unknown id and a match with a second player are reported and change nothing; otherwise only the join fields of that match change; consistency is kept |
| Online.GameStore.ResetRound | dash.js:315-324 | an existing match gets the reset fields and a deleted one is left alone; consistency is kept when the match is not waiting |
| Online.GameStore.DeleteGame | dash.js:326-330 | the match is removed and nothing else changes; consistency is kept |
| Online.MoveKeepsAllConsistent | dash.js:227-242 | storing an accepted move merged into the record it was computed from keeps every stored match consistent |
| Online.GameStore.SubmitMove | dash.js:242 | the move update is merged into whatever record the store holds now; a deleted match is left alone; when the update is an accepted move computed from the record the store holds, consistency is kept |
| Online.GameStore.CommitStats | dash.js:263-266 | the match's flags and the user's counters change together, or neither changes; consistency is kept |
| Online.GameView.Enter | dash.js:186-215 | entering a match sets `isGameActive` and leaves the symbol unset |
| Online.GameView.OnSnapshot | dash.js:270-281 | a deleted match ends the session and clears `isGameActive`; otherwise the stats step is computed from the snapshot, and the symbol and activity flag are taken from it |
| Online.GameView.ClickTile | dash.js:227-228 | a click sends a move exactly when a symbol is known and the move guard holds, and then sends the move that guard computes |
| Minimax.AvailFrom | playWComp.js:87-89 | the available spots are exactly the empty cells, in increasing order |
| Minimax.ArgBestIsFirstBest | playWComp.js:124-142 | the running selection returns an index with no strictly better score anywhere, and strictly better than every score before it |
| Minimax.TerminalIsOver | playWComp.js:92-100 | the search's terminal test holds exactly when some line is complete or no cell is empty |
| Minimax.TerminalScores | playWComp.js:98-100 | an O line scores -10 and is checked first, then an X line scores +10, then a full board scores 0; the result carries a move exactly when the position is not terminal |
| Minimax.ChildScoresAt | playWComp.js:105-121 | the `j`th recorded score is the search's score after playing the `j`th available spot with the opponent to move |
| Minimax.ValuePlacesOnEmpty | playWComp.js:105-144 | on a non-terminal position the returned index is an empty cell |
| Minimax.ValueIsBest | playWComp.js:124-144 | on a non-terminal position the returned score is the score of playing the returned cell; no empty cell scores better for the mover (maximum for X, minimum for O); every empty cell before it scores strictly worse |
| Minimax.ValueRange | playWComp.js:98-118 | every score the search returns is -10, 0 or 10 |
| Minimax.Search | playWComp.js:86-145 | the in-place search returns the minimax choice of the array's initial contents and leaves the array as it began |
| Minimax.ScoreMoves | playWComp.js:103-122 | trying each spot in turn records each spot with its child score and restores every trial cell to empty |
| Minimax.ChooseBest | playWComp.js:124-144 | the selection returns the first index of the best score: none better, all earlier strictly worse |
| LocalGame.NewEmptyBoard | playWComp.js:178 | a new board of nine empty cells, which is not a terminal position |
| LocalGame.Game.constructor | playWComp.js:11-15 | the game starts on an empty board, the computer to move and the game on |
| LocalGame.Game.HandleResultValidation | playWComp.js:26-48 | a complete line ends the game as a win of the current player; otherwise a full board ends it as a tie; otherwise nothing changes |
| LocalGame.Game.UpdateBoard | playWComp.js:68-70 | only the given cell changes, to the current player's mark |
| LocalGame.Game.ChangePlayer | playWComp.js:80-83 | the turn passes to the other player |
| LocalGame.Game.UserAction | playWComp.js:163-175 | nothing changes unless the cell is empty, the game is on and it is the human's turn; otherwise only that cell becomes O, the game ends exactly on a line or a full board (a line is an O win), and the turn passes to the computer exactly when the game goes on |
| LocalGame.Game.ComputerMove | playWComp.js:147-161 | a game that is over is left alone; otherwise the current player's mark goes into the cell minimax chooses for the computer (an empty cell), the result is judged, and the turn passes exactly when the game goes on |
| LocalGame.Game.ResetBoard | playWComp.js:177-192 | a fresh empty board, the game on, the computer to move and to move next |
| Password.TestIsContains | auth.js:56-58 | a class test succeeds exactly when some code unit of the password is in the class |
| Password.TestMonotone | auth.js:56-58 | appending code units never makes a passing class test fail |
| Password.SubmitGate | auth.js:55-63 | account creation is attempted exactly when the password has at least eight code units, an A-Z letter, a 0-9 digit and one of `@ $ ! % * ? &`; any failing rule rejects it first |
| Password.IndicatorsAgreeWithGate | auth.js:18-42 | each live indicator shows its rule as met exactly when that rule holds, and all four are met exactly when the submit gate accepts |
| Password.AcceptedMonotone | auth.js:55-60 | appending to an accepted password keeps it accepted |
| Password.Utf16 | auth.js:52 | the code-unit string is at least as long as the typed string |
| Password.Utf16Classes | auth.js:56-58 | a class test on the code units succeeds exactly when some typed character is in the class |
| Password.LengthCountsCodeUnits | auth.js:55 | eight typed characters always meet the length rule, and four characters outside the Basic Multilingual Plane already do |

## Left out

- The remote calls themselves are not modelled: `get`, `set`, `update`, `delete`, `onSnapshot`, batches and authentication. Reads are parameters. Writes are changes to a `Match` value or to the store's maps. A missing document makes an update fail, which is modelled as no change.
- Concurrency is not modelled: two clients racing, or a snapshot going stale between the read and the write. `Online.GameStore.SubmitMove` therefore promises consistency only for a move computed from the record the store holds when the update arrives. For a stale snapshot it promises nothing.
- The batch's atomicity is taken for granted (`Online.GameStore.CommitStats` applies both halves or neither).
- The DOM is not modelled: rendering, status texts, names and scores on screen, alerts and navigation. The tile text in `isValidAction` is always written and cleared together with the board cell, so the model lets the board cell decide.
- Timers are not modelled. `setTimeout(computerMove, 400)` becomes a `computerNext` result meaning "the computer moves next". The page load schedules the first computer move the same way; `LocalGame.Game.constructor` cannot return a value, so there it is implied by the computer being the current player. A reset during those 400 ms runs two computer moves in the source; the model does not model that interleaving.
- `Math.random` is not modelled: its draws are a parameter, and floating-point rounding of the id formula is not modelled. The draws are real numbers in [0, 1).
- Online.GameStore.MakeGame: the source's `while (docExists)` loop draws without end. The model runs over a finite sequence of draws and returns no id when all of them collide, because termination of the source's loop cannot be established.
- `createdAt` (a server timestamp) is left out of the match record.
- The win percentage on the dashboard (floating-point division and `toFixed`) is not modelled.
- Account creation, sign-in and email verification are not modelled: they are backend calls.
- Reset round: the code does not check the status before writing the reset fields. The button is hidden once a snapshot shows the match waiting; before the first snapshot nothing hides it. `Online.GameStore.ResetRound` is modelled as the code does it, and its consistency guarantee requires a match that is not waiting.
- Online.StatsCreditWinner: stated only for a user who holds exactly one seat. A user who joined their own match holds both seats; both of their flags are set and they are credited once, with the win of either symbol.
- Minimax: that the computer never loses a whole game is not proved, because it would mean exploring the whole game tree in the verifier. The model proves the one-ply properties: terminal scores, max/min, tie-breaking and the score range.
- LocalGame.Game.ComputerMove: the source places `currentPlayer` rather than the constant X. The model does the same and states it, and `ComputerMove` requires nothing about whose turn it is.
