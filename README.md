# Consola de Juegos: a Dafny model of the game host's bookkeeping

The repository is a Swing desktop "game console". It hosts three games:
Tic-Tac-Toe, Ahorcado (hangman) and Pac-Man. It also loads further games as
plugins from jar files, and it keeps a top-three score table per game. This
project models the logic behind the windows. The UI itself is not modelled.

- **Core** (`AbstractGame`). A game keeps its listeners in a list without
  duplicates, along with a running flag and a current score. It hands every
  event to each listener synchronously, in list order. A listener call is
  recorded as one `Delivery` (listener, handler, event) appended to the game's
  `delivered` log, so a notification shows up in the state.
- **Events** (`GameEvent`). An event has a name, a kind, a score and a side
  map of extra data.
- **Records** and **Scores** (`GameRecord`, `ScoreManager`). A record is a
  value. The table keeps, per game, the three best records, best first. The
  order is that of a stable sort by descending score.
- **TicTacToe**, **Ahorcado**, **PacMan**. One class per engine. Each holds
  its shared `GameCore` and the fields the source updates in place:
  - Tic-Tac-Toe: a nine-cell board array, turn, move count and tallies.
  - Ahorcado: the shown word, attempts and letters tried.
  - Pac-Man: blocks, lives and score.
- **Plugins** (`GamePlugin`). A plugin is one of the three engines. Two
  plugins are equal exactly when they wrap the same object.
- **Loader** (`GamePluginLoader`). A registry keyed by game name where the
  first registration wins, plus the set of jar file names already loaded.
  - A jar is an abstract value: what its service pass yields (and whether it
    then raises an Error), and its entries with the outcome of loading the
    class whose name the scan computes from each.
  - A load returns normally, throws an exception, or raises an Error that no
    handler of the loader catches.
  - The model covers the batch scan up to its first Error, the watcher per
    event and per key, the ServiceLoader pass with its manual-scan fallback,
    and the interactive load.
- **Controller** (`MainController`). The list of games offered, the game
  being played, game selection, and the routing of callbacks. Only a
  GAME_FINISHED callback writes a score.

Inputs the program takes from its environment are parameters of the model.
These are:
- the current date;
- whether writing the scores file succeeds;
- the directory listing and the content of each jar;
- the watch events;
- the file chooser's answer and whether copying the chosen file succeeds;
- the random ghost directions, as a nondeterministic choice among the four
  directions.

## Model

| member | source | states |
|---|---|---|
| Core.GameCore.constructor | src/main/model/core/AbstractGame.java:14-18 | a new game has no listeners, is not running and has score 0 |
| Core.GameCore.AddGameListener | src/main/model/core/AbstractGame.java:21-25 | a null or already subscribed listener is ignored, any other is appended at the end; the list stays free of duplicates; nothing else changes |
| Core.WithListener | src/main/model/core/AbstractGame.java:21-25 | the listener list after `addGameListener`: a null or already listed listener leaves it as it is, any other is appended at the end |
| Core.WithListenerProps | src/main/model/core/AbstractGame.java:21-25 | subscribing keeps the list duplicate-free, puts the listener in it, grows the list by at most one keeping it as a prefix, and subscribing twice equals subscribing once |
| Core.GameCore.RemoveGameListener | src/main/model/core/AbstractGame.java:28-30 | the first occurrence of the listener is removed and the others keep their order; afterwards the listener is absent; null removes nothing |
| Core.RemoveFirst | src/main/model/core/AbstractGame.java:28-30 | the listener list after `List.remove(Object)`: the first occurrence of the listener goes and the others keep their order |
| Core.RemoveFirstProps | src/main/model/core/AbstractGame.java:28-30 | on a duplicate-free list, removal keeps it duplicate-free, drops the listener, and keeps every other listener |
| Core.RemoveFirstSplice | src/main/model/core/AbstractGame.java:28-30 | removing a listener that first occurs at index k splices out exactly that index |
| Core.RemoveFirstAbsent | src/main/model/core/AbstractGame.java:28-30 | removing a listener that is not subscribed leaves the list as it was |
| Core.AddThenRemove | src/main/model/core/AbstractGame.java:21-30 | unsubscribing a newly subscribed listener restores the list |
| Core.Fanout | src/main/model/core/AbstractGame.java:36-38 | a loop handing one event to a list of listeners makes one call per listener, the i-th to the i-th listener |
| Core.FanoutAppend | src/main/model/core/AbstractGame.java:36-38 | fanning out over a concatenation is fanning out over each part in turn |
| Core.FanoutExactlyOnce | src/main/model/core/AbstractGame.java:36-38 | on a duplicate-free list, each subscribed listener is called exactly once per event and an unsubscribed one never |
| Core.GameCore.Publish | src/main/model/core/AbstractGame.java:36-38 | the loop appends exactly the fan-out of the event over the listeners, in list order, and changes nothing else |
| Core.GameCore.NotifyGameFinished | src/main/model/core/AbstractGame.java:32-39 | a new GAME_FINISHED event with the final score goes to every listener's onGameFinished; currentScore is unchanged |
| Core.GameCore.NotifyScoreUpdated | src/main/model/core/AbstractGame.java:41-49 | currentScore becomes the new score, then a SCORE_UPDATED event with that score goes to every listener's onScoreUpdated |
| Core.GameCore.NotifyGameStateChanged | src/main/model/core/AbstractGame.java:51-57 | an event of the given kind carrying the current score goes to every listener's onGameStateChanged |
| Core.GameCore.NotifyGameError | src/main/model/core/AbstractGame.java:59-68 | a GAME_ERROR event with the current score goes to every listener's onGameError; its "errorMessage" entry is the message given, null when that is null, and its "exception" entry the exception given, null when absent |
| Core.GameCore.IsGameRunning | src/main/model/core/AbstractGame.java:70-73 | the running flag, as the game last set it |
| Core.GameCore.GetCurrentScore | src/main/model/core/AbstractGame.java:75-78 | the current score, as the game last set or reported it |
| Events.GameEvent.constructor | src/main/model/core/GameEvent.java:24-30 | the event stores the given name, kind and score and starts with an empty data map |
| Events.GameEvent.Unscored | src/main/model/core/GameEvent.java:32-34 | the two-argument constructor gives score 0 and an empty data map |
| Events.GameEvent.GetData | src/main/model/core/GameEvent.java:46-48 | the value stored under the key, or null for a key never added |
| Events.GameEvent.AddData | src/main/model/core/GameEvent.java:42-48 | getData of the key returns the value just added, a later add overwrites, and every other key reads as before |
| Events.GameEvent.ToString | src/main/model/core/GameEvent.java:50-54 | the text is the fixed frame with the name and kind, then the score, then "]", and the score can be read back from it |
| Text.IntRoundTrip | src/main/model/persistence/ScoreManager.java:66 | the decimal rendering of an int is a numeral that parses back to the same int |
| Text.NatRoundTrip | src/main/model/persistence/ScoreManager.java:66 | the decimal rendering of a natural number is a non-empty run of digits that parses back to the number |
| Text.FramedNumber | src/main/model/core/GameEvent.java:52-53 | a number rendered between a fixed prefix and suffix can be read back from between them |
| Text.DropClassSuffix | src/main/model/core/GamePluginLoader.java:199-201 | deleting every ".class" from t + ".class" gives t when t contains no ".class" |
| Text.DeleteAddsNothing | src/main/model/core/GamePluginLoader.java:199-203 | deleting occurrences of a pattern brings in no character the text lacked |
| Records.FormattedDate | src/main/model/persistence/GameRecord.java:28-32 | a null date renders as "Fecha desconocida", any other as its formatted text |
| Records.EmptyRecord | src/main/model/persistence/GameRecord.java:11 | the no-argument constructor leaves name and date null and score 0 |
| Records.GameRecord.SetGameName | src/main/model/persistence/GameRecord.java:20 | only the name changes |
| Records.GameRecord.SetScore | src/main/model/persistence/GameRecord.java:23 | only the score changes |
| Records.GameRecord.SetDate | src/main/model/persistence/GameRecord.java:26 | only the date changes |
| Records.GameRecord.ToString | src/main/model/persistence/GameRecord.java:34-38 | the text is "GameRecord[name: ", the score, then " pts on date]", and the score can be read back from it |
| Scores.Insert | src/main/model/persistence/ScoreManager.java:33 | inserting adds exactly the new record to the multiset of records |
| Scores.Sort | src/main/model/persistence/ScoreManager.java:33 | the sort is a permutation of its input |
| Scores.SortSorted | src/main/model/persistence/ScoreManager.java:33 | the sorted list is in non-increasing score order |
| Scores.SortStable | src/main/model/persistence/ScoreManager.java:33 | for every score, the records with that score keep their relative order |
| Scores.InsertSorted | src/main/model/persistence/ScoreManager.java:33 | inserting into a sorted list keeps it sorted |
| Scores.InsertStable | src/main/model/persistence/ScoreManager.java:33 | within one score, the inserted record goes after the records already there |
| Scores.WithScoreAppend | src/main/model/persistence/ScoreManager.java:33 | selecting the records of one score distributes over concatenation |
| Scores.WithScoreBelow | src/main/model/persistence/ScoreManager.java:33 | a sorted list whose best score is below k holds no record of score k |
| Scores.TopThree | src/main/model/persistence/ScoreManager.java:35-37 | the cut is a prefix, of length three when the list was longer, else the whole list |
| Scores.Kept | src/main/model/persistence/ScoreManager.java:29-37 | the kept list has the old length plus one, at most three |
| Scores.PrefixKeepsBetter | src/main/model/persistence/ScoreManager.java:35-37 | cutting a sorted list after n records keeps every record that beats the n-th |
| Scores.KeptRecords | src/main/model/persistence/ScoreManager.java:29-37 | the kept list is sorted best first, holds at most three records, takes all of them from the old list plus the new record, and keeps every record that beats the worst one kept |
| Scores.RecordsOf | src/main/model/persistence/ScoreManager.java:29 | a game never scored has the empty list, any other its stored list |
| Scores.UpdatedTable | src/main/model/persistence/ScoreManager.java:27-39 | the table gains the game's key; the game's list is the kept list of its old list plus the new record; every other game keeps its list |
| Scores.ScoreManager.constructor | src/main/model/persistence/ScoreManager.java:14-18 | the table in memory and the stored table are empty |
| Scores.ScoreManager.UpdateScore | src/main/model/persistence/ScoreManager.java:27-48 | the table becomes the updated table, and the game's list is sorted with at most three records; where the save fails, the exception is caught, the update in memory stays and the stored table is unchanged |
| Scores.ScoreManager.GetTopScores | src/main/model/persistence/ScoreManager.java:50-52 | an unknown game has the empty list, a known one its list |
| Scores.ScoreManager.GetTopScoresAsStrings | src/main/model/persistence/ScoreManager.java:55-70 | an empty list gives the single line "No hay records aún"; otherwise there is one line per record, numbered from 1 in list order |
| Scores.ScoreLineReadsBack | src/main/model/persistence/ScoreManager.java:66 | a line starts with "rank. " and ends with " pts - date", and the score can be read back from between them |
| TicTacToe.Filled | src/main/model/games/TicTacToeGame.java:352-354 | the filled count never exceeds the board size |
| TicTacToe.PlaceCounts | src/main/model/games/TicTacToeGame.java:352-354 | marking an empty tile adds one to the filled count and to the mark's count, and takes one from the blanks |
| TicTacToe.FullBoard | src/main/model/games/TicTacToeGame.java:183 | the filled count equals the board size exactly when every tile is marked |
| TicTacToe.AllBlank | src/main/model/games/TicTacToeGame.java:124-138 | an empty board has no filled tiles and no marks |
| TicTacToe.LastMoverOwnsLine | src/main/model/games/TicTacToeGame.java:141-181 | a move on a board with no line creates a line only for the mover, never for the other player, so declaring the current player the winner is right |
| TicTacToe.MoveCompletes | src/main/model/games/TicTacToeGame.java:141-181 | a line that a move completes shows the mover's mark |
| TicTacToe.TicTacToeGame.constructor | src/main/model/games/TicTacToeGame.java:29-51 | the single instance has an empty board, X to move, no tallies, no listeners and is not running |
| TicTacToe.TicTacToeGame.ResetGame | src/main/model/games/TicTacToeGame.java:124-138 | X to move, no moves, not over, score 0, every tile empty; the tallies and the running flag are kept |
| TicTacToe.TicTacToeGame.StartGame | src/main/model/games/TicTacToeGame.java:74-81 | nothing changes when running; otherwise reset, running, and GAME_STARTED announced to every listener |
| TicTacToe.TicTacToeGame.PauseGame | src/main/model/games/TicTacToeGame.java:84-88 | GAME_PAUSED is announced only when running; the running flag is unchanged |
| TicTacToe.TicTacToeGame.RestartGame | src/main/model/games/TicTacToeGame.java:91-96 | the game ends up running on an empty board with X to move; GAME_STARTED is announced only when it was not running |
| TicTacToe.TicTacToeGame.StopGame | src/main/model/games/TicTacToeGame.java:99-104 | the game is not running and not over, and GAME_FINISHED goes out as a state change |
| TicTacToe.TicTacToeGame.GameFinished | src/main/model/games/TicTacToeGame.java:211-235 | over and stopped; a win adds one to the winner's tally and scores 100 + 10 × wins; a tie adds one to the ties and scores 50 + 5 × ties; the score goes out as GAME_FINISHED |
| TicTacToe.TicTacToeGame.FindLine | src/main/model/games/TicTacToeGame.java:141-181 | the row, column and diagonal search finds a line exactly when the board has one |
| TicTacToe.TicTacToeGame.CheckWinner | src/main/model/games/TicTacToeGame.java:140-193 | a line makes the current player win; otherwise a full board is a tie; otherwise the other player is to move and nothing is announced |
| TicTacToe.TicTacToeGame.Click | src/main/model/games/TicTacToeGame.java:347-359 | a click when over, not running or on a taken tile changes nothing; otherwise the mover's mark is placed and the move counted; a line is the mover's and adds one to the mover's wins only, a full board without a line adds one tie only, and otherwise the turn passes with score and tallies unchanged |
| Ahorcado.AllRevealed | src/main/model/games/AhorcadoGame.java:192 | no '_' is left exactly when every letter of the secret has been tried |
| Ahorcado.MissesGrow | src/main/model/games/AhorcadoGame.java:182-183 | a new wrong letter adds one to the misses, and a new right one adds none |
| Ahorcado.AhorcadoGame.constructor | src/main/model/games/AhorcadoGame.java:40-71 | a fresh round with secret "pluma", six attempts, nothing tried, score 0, not running |
| Ahorcado.AhorcadoGame.ResetGame | src/main/model/games/AhorcadoGame.java:146-160 | secret "pluma", "_ " once per letter, six attempts, no letters tried, score 0; the running flag is kept |
| Ahorcado.AhorcadoGame.StartGame | src/main/model/games/AhorcadoGame.java:97-104 | nothing changes when running; otherwise reset, running, and GAME_STARTED announced |
| Ahorcado.AhorcadoGame.PauseGame | src/main/model/games/AhorcadoGame.java:107-111 | GAME_PAUSED is announced only when running; the running flag is unchanged |
| Ahorcado.AhorcadoGame.RestartGame | src/main/model/games/AhorcadoGame.java:114-119 | the round is reset and ends up running; GAME_STARTED is announced only when it was not running |
| Ahorcado.AhorcadoGame.StopGame | src/main/model/games/AhorcadoGame.java:122-126 | not running, and GAME_FINISHED goes out as a state change |
| Ahorcado.AhorcadoGame.FinishGame | src/main/model/games/AhorcadoGame.java:198-211 | the round stops; a win scores 50 × attempts + 20 × secret length, a loss 10 × letters tried; one GAME_FINISHED event carries the score |
| Ahorcado.AhorcadoGame.ProcessLetter | src/main/model/games/AhorcadoGame.java:162-196 | a repeated letter changes nothing; a new one is recorded and the shown word follows the tried letters; a wrong one costs exactly one attempt and loses at zero; a right one keeps the attempts and wins when nothing is hidden |
| Ahorcado.AhorcadoGame.RevealLetter | src/main/model/games/AhorcadoGame.java:168-175 | every place of the secret holding the letter is uncovered, the odd positions stay as they were, and `correct` is true exactly when the letter occurs in the secret |
| Ahorcado.AhorcadoGame.PressLetter | src/main/model/games/AhorcadoGame.java:396-399 | a letter pressed while the round is not running changes nothing |
| PacMan.TileMapWellShaped | src/main/model/games/PacManGame.java:251-273 | the map has 21 rows of 19 tiles |
| PacMan.NewBlock | src/main/model/games/PacManGame.java:186-194 | a new block starts at its position, facing 'U', at rest |
| PacMan.Collision | src/main/model/games/PacManGame.java:470-475 | two rectangles collide when they overlap strictly along both axes |
| PacMan.CollisionSymmetric | src/main/model/games/PacManGame.java:470-475 | the overlap test is symmetric |
| PacMan.CollisionStrict | src/main/model/games/PacManGame.java:470-475 | rectangles that only share an edge do not collide, and a block of positive size collides with itself |
| PacMan.UpdateVelocity | src/main/model/games/PacManGame.java:212-226 | U, D, L and R give velocity ±6 along one axis and 0 along the other; any other direction leaves the block unchanged |
| PacMan.VelocityOneAxis | src/main/model/games/PacManGame.java:212-226 | for the four directions the block moves along exactly one axis by 6 |
| PacMan.RevertPass | src/main/model/games/PacManGame.java:202-208 | the wall loop of `updateDirection`: each wall the block overlaps takes back one step at the current velocity and restores the previous direction and its velocity |
| PacMan.Stepped | src/main/model/games/PacManGame.java:196-201 | the block turned to the new direction, with its velocity set, and moved one step |
| PacMan.Turned | src/main/model/games/PacManGame.java:196-210 | `updateDirection(d)`: the stepped block passed through the wall loop, with the old direction to restore |
| PacMan.UpdateDirection | src/main/model/games/PacManGame.java:196-210 | the loop's result is the specified turn: turn, step, and each overlapped wall undoes a step and restores the previous direction |
| PacMan.RevertPassIdle | src/main/model/games/PacManGame.java:202-208 | a block that overlaps no wall passes the wall loop untouched |
| PacMan.RevertPassBack | src/main/model/games/PacManGame.java:202-208 | a step into a wall from a free place is undone, back to that place and its direction |
| PacMan.TurnFree | src/main/model/games/PacManGame.java:196-210 | a turn whose step hits no wall takes the new direction and the step |
| PacMan.TurnBlocked | src/main/model/games/PacManGame.java:196-210 | a turn whose step runs into a wall leaves a steady, free block exactly as it was |
| PacMan.Reset | src/main/model/games/PacManGame.java:228-231 | reset restores the start coordinates only |
| PacMan.KindOf | src/main/model/games/PacManGame.java:339-359 | 'X' is a wall, "bopr" a ghost, 'P' Pac-Man, ' ' a pellet, anything else nothing |
| PacMan.TileBlock | src/main/model/games/PacManGame.java:335-359 | a pellet is 4 × 4 at (24c + 10, 24r + 10); every other block is a tile at (24c, 24r) |
| PacMan.RowBlocks | src/main/model/games/PacManGame.java:332-359 | the blocks of one kind the inner loop makes from the first n tiles of a row, in column order |
| PacMan.MapBlocks | src/main/model/games/PacManGame.java:326-362 | the blocks of one kind the nested loops make from the first n rows, in row-major order |
| PacMan.RowPacman | src/main/model/games/PacManGame.java:332-360 | Pac-Man after the first n tiles of a row: the block of the last 'P' among them, otherwise the one before |
| PacMan.MapPacman | src/main/model/games/PacManGame.java:326-362 | Pac-Man after the first n rows: the block of the last 'P' in row-major order, otherwise the one before |
| PacMan.RowBlocksMembers | src/main/model/games/PacManGame.java:332-359 | the blocks of a kind from one row are exactly those made for its tiles of that kind |
| PacMan.MapBlocksMembers | src/main/model/games/PacManGame.java:326-362 | the blocks of a kind are exactly those made for the map's tiles of that kind, each at its row and column |
| PacMan.RowPacmanAt | src/main/model/games/PacManGame.java:354-355 | Pac-Man is made at a 'P' of the row, or left as it was when the row has none |
| PacMan.MapPacmanLast | src/main/model/games/PacManGame.java:326-362 | Pac-Man ends up at the last 'P' in row-major order |
| PacMan.RowPacmanLast | src/main/model/games/PacManGame.java:332-359 | within a row, the last 'P' decides where Pac-Man is |
| PacMan.PacmanStart | src/main/model/games/PacManGame.java:251-273 | the fixed map puts Pac-Man at row 15, column 9 |
| PacMan.ScanMap | src/main/model/games/PacManGame.java:326-362 | the nested scan gives exactly the map's walls, pellets and ghosts in row-major order, and Pac-Man at the last 'P' |
| PacMan.ScanRow | src/main/model/games/PacManGame.java:332-359 | the inner loop gives exactly one row's walls, pellets, ghosts and Pac-Man |
| PacMan.TurnAll | src/main/model/games/PacManGame.java:295-298 | every ghost takes a turn in one of the four directions |
| PacMan.ResetEach | src/main/model/games/PacManGame.java:481-482 | every ghost is back at its start |
| PacMan.GhostPass | src/main/model/games/PacManGame.java:441-447 | the wall loop of a ghost's move: at each wall it overlaps, or while it touches a side of the board, the step is taken back and the ghost turns the way drawn for that wall |
| PacMan.RowRule | src/main/model/games/PacManGame.java:436-438 | a ghost on row 9 moving sideways turns upwards first |
| PacMan.Roamed | src/main/model/games/PacManGame.java:436-447 | a ghost's move: the row rule, one step, then the wall loop with some draw of a direction per wall |
| PacMan.GhostPassIdle | src/main/model/games/PacManGame.java:441-447 | a ghost that overlaps no wall and stays clear of the sides keeps its place, whatever directions are drawn |
| PacMan.RoamFree | src/main/model/games/PacManGame.java:436-447 | a ghost whose step is free of walls and sides takes that step |
| PacMan.MoveGhost | src/main/model/games/PacManGame.java:436-447 | the ghost's move is the row rule, one step, then the wall loop with random turns |
| PacMan.PelletHits | src/main/model/games/PacManGame.java:452-459 | the pellet count never exceeds the pellets on the board |
| PacMan.LastPellet | src/main/model/games/PacManGame.java:452-459 | the pellet eaten, if any, is one of the pellets on the board |
| PacMan.PelletFacts | src/main/model/games/PacManGame.java:451-460 | Pac-Man scores exactly when it overlaps a pellet, and the pellet removed is the last one it overlaps |
| PacMan.PelletStep | src/main/model/games/PacManGame.java:452-459 | one more pellet adds one to the count exactly when Pac-Man overlaps it, and becomes the eaten one |
| PacMan.RemovePellet | src/main/model/games/PacManGame.java:460 | removing null removes nothing; removing a pellet takes out exactly that one |
| PacMan.PelletPass | src/main/model/games/PacManGame.java:451-460 | one pass removes a pellet exactly when it scores, and never more than one |
| PacMan.Round | src/main/model/core/AbstractGame.java:32-49 | one notification round: every listener in list order called through one handler with one event of the given kind, game name and score |
| PacMan.PelletRounds | src/main/model/games/PacManGame.java:452-458 | the deliveries of n scoring pellets: n SCORE_UPDATED rounds, the r-th carrying the starting score plus 10r |
| PacMan.PelletRoundsNext | src/main/model/games/PacManGame.java:453-458 | one more scoring pellet adds one SCORE_UPDATED round to every listener, carrying the raised score |
| PacMan.PelletRoundsLength | src/main/model/games/PacManGame.java:452-458 | n pellet rounds hold n deliveries per listener |
| PacMan.PelletRoundsAt | src/main/model/games/PacManGame.java:452-458 | in round r of the pellet deliveries, the j-th call goes to the j-th listener through onScoreUpdated with a SCORE_UPDATED event carrying the starting score plus 10(r + 1) |
| PacMan.TickLog | src/main/model/games/PacManGame.java:451-467 | what a tick that does not end the game adds to the delivery log: the pellet rounds, then, when the board was cleared, one GAME_FINISHED round through onGameFinished carrying the score reached |
| PacMan.TickLogStart | src/main/model/games/PacManGame.java:451 | before any pellet the tick has added nothing to the log |
| PacMan.TickLogNext | src/main/model/games/PacManGame.java:453-458 | one more scoring pellet extends the tick's log by its SCORE_UPDATED round |
| PacMan.TickLogLength | src/main/model/games/PacManGame.java:452-458 | the log of a tick that leaves pellets grew by one delivery per listener per pellet touched |
| PacMan.TickLogCleared | src/main/model/games/PacManGame.java:462-467 | the GAME_FINISHED round of a cleared board, carrying the score reached, completes the tick's log after the pellet rounds |
| PacMan.ClearedTickFinishes | src/main/model/games/PacManGame.java:462-467 | with listeners present, a tick that clears the board adds deliveries, the last being the last listener's onGameFinished with a GAME_FINISHED event carrying the score reached |
| PacMan.KeyDirection | src/main/model/games/PacManGame.java:540-547 | every arrow key maps to one of the four directions |
| PacMan.PacManGame.constructor | src/main/model/games/PacManGame.java:287-300 | the board is loaded from the map, Pac-Man is at row 15, column 9, every ghost has turned a random way, three lives, score 0, not running |
| PacMan.PacManGame.LoadMap | src/main/model/games/PacManGame.java:326-362 | the walls, pellets and ghosts are those of the map; Pac-Man is at its last 'P'; nothing else changes |
| PacMan.PacManGame.ResetPositions | src/main/model/games/PacManGame.java:477-486 | Pac-Man is back at its start and at rest; each ghost is back at its start and turned a random way |
| PacMan.PacManGame.ResetGame | src/main/model/games/PacManGame.java:488-500 | score 0, three lives, not over, reported score 0; board reloaded, positions reset, every ghost turned twice |
| PacMan.PacManGame.StartGame | src/main/model/games/PacManGame.java:65-73 | nothing changes when running; otherwise the game is reset (board reloaded, Pac-Man at its start and at rest, every ghost at its start turned twice), runs with the timer started, and GAME_STARTED is announced |
| PacMan.PacManGame.PauseGame | src/main/model/games/PacManGame.java:76-82 | unlike the other games, pausing stops the game and the timer; GAME_PAUSED is announced only when it was running |
| PacMan.PacManGame.RestartGame | src/main/model/games/PacManGame.java:85-92 | the game ends up running with the timer on, score 0, three lives, the board reloaded, Pac-Man at its start and at rest and every ghost at its start turned twice; GAME_STARTED is announced only when it was not running |
| PacMan.PacManGame.StopGame | src/main/model/games/PacManGame.java:95-100 | the timer and the game stop and GAME_FINISHED goes out as a state change with the score |
| PacMan.PacmanStep | src/main/model/games/PacManGame.java:402-411 | Pac-Man's step by its velocity, taken back when the moved block overlaps any wall |
| PacMan.PacManGame.MovePacman | src/main/model/games/PacManGame.java:402-411 | Pac-Man takes one step, taken back when it overlaps a wall |
| PacMan.PacManGame.CatchCheck | src/main/model/games/PacManGame.java:414-433 | a ghost touching Pac-Man costs a life; at zero lives the game is over, stopped, and GAME_FINISHED carries the score; otherwise positions reset |
| PacMan.PacManGame.Roam | src/main/model/games/PacManGame.java:436-447 | only ghost i moves, as a ghost's move specifies |
| PacMan.PacManGame.MoveGhosts | src/main/model/games/PacManGame.java:413-448 | the ghosts, Pac-Man and the lives end as the ghost loop relation says: every ghost in turn is checked, costing a life and a reset on contact, then moved; or the loop stops at the ghost that caught Pac-Man on the last life, with the game over and GAME_FINISHED announced |
| PacMan.GhostTurn | src/main/model/games/PacManGame.java:413-447 | one turn of the ghost loop that does not end the game: on contact a life goes and the positions reset with every ghost turned; then ghost i moves |
| PacMan.GhostLoop | src/main/model/games/PacManGame.java:413-447 | the whole ghost loop: every ghost has its turn, or the loop stops at the ghost that touches Pac-Man on the last life, with no lives left |
| PacMan.TurnLives | src/main/model/games/PacManGame.java:413-447 | a turn of the ghost loop that does not end the game keeps the ghosts and costs at most one life, never the last |
| PacMan.RunLast | src/main/model/games/PacManGame.java:413-447 | a run of at least one turn ends with a turn from a run one shorter |
| PacMan.GhostsRunLives | src/main/model/games/PacManGame.java:413-448 | turns of the ghost loop that do not end the game keep the ghosts, cost at most one life each and never the last |
| PacMan.GhostLoopLives | src/main/model/games/PacManGame.java:413-433 | the ghost loop of a game with lives ends with none exactly when a ghost caught Pac-Man on the last life, and costs at most one life per ghost |
| PacMan.PacManGame.EndTick | src/main/model/games/PacManGame.java:451-467 | the score rises by ten per pellet touched and the last one touched goes; an empty board is reloaded with positions reset; lives are kept and the game runs on; the log gains one SCORE_UPDATED round per pellet touched, carrying the running score, then, on an empty board, one GAME_FINISHED round with the score reached |
| PacMan.PacManGame.ScorePellet | src/main/model/games/PacManGame.java:455-457 | one touched pellet: ten more points, and one more SCORE_UPDATED round with the raised score in the tick's log |
| PacMan.PacManGame.ScorePellets | src/main/model/games/PacManGame.java:451-459 | ten points per pellet touched, the reported score following; the log gains one SCORE_UPDATED round to every listener in order per pellet touched, the r-th carrying the old score plus 10r; the eaten pellet is the last one touched |
| PacMan.PacManGame.EatPellets | src/main/model/games/PacManGame.java:451-460 | the score rises by ten per pellet touched, exactly the last pellet touched is removed, and the log gains one SCORE_UPDATED round per pellet touched, carrying the running score |
| PacMan.PacManGame.LevelCleared | src/main/model/games/PacManGame.java:462-467 | the board is reloaded, positions reset, and GAME_FINISHED goes out with the unchanged score; the game keeps running |
| PacMan.PacManGame.Move | src/main/model/games/PacManGame.java:397-468 | nothing happens unless running; otherwise Pac-Man steps, the ghost loop runs from there, and unless it ended the game the pellets are scored and eaten and an empty board is reloaded with positions reset, the log gaining the SCORE_UPDATED rounds and, on an empty board, the GAME_FINISHED round; lives only go down, the score only up in steps of ten |
| PacMan.PacManGame.Tick | src/main/model/games/PacManGame.java:402-467 | the running tick: Pac-Man steps, the ghost loop runs from there, and unless it ended the game the pellets are scored and eaten and an empty board is reloaded, the log gaining the SCORE_UPDATED rounds and, on an empty board, the GAME_FINISHED round; lives only go down, the score only up in steps of ten |
| PacMan.PacManGame.KeyReleased | src/main/model/games/PacManGame.java:535-548 | while running, an arrow key turns Pac-Man by the turn rule; other keys, or keys while stopped, change nothing |
| Plugins.Plugin.GetGameVersion | src/main/model/games/PacManGame.java:50-52 | every engine is at version "1.0" |
| Plugins.Plugin.AddGameListener | src/main/model/core/AbstractGame.java:21-25 | the engine's list gets the guarded append, and its running flag and log stay |
| Plugins.Plugin.RemoveGameListener | src/main/model/core/AbstractGame.java:28-30 | the listener is removed from the engine's list; running flag and log stay |
| Plugins.Plugin.StopGame | src/main/model/games/AhorcadoGame.java:122-126 | every engine stops and publishes GAME_FINISHED as a state change with its current score |
| Plugins.Plugin.RestartGame | src/main/model/games/AhorcadoGame.java:114-119 | every engine ends up running; a stopped one announces GAME_STARTED with score 0 and a running one announces nothing |
| Plugins.OnlyStateChangesTrans | src/main/controller/MainController.java:132-138 | "only state changes were published" composes across successive steps |
| Loader.Register | src/main/model/core/GamePluginLoader.java:165-173 | a plugin whose name is taken is ignored; otherwise it is added under its name; old entries stay |
| Loader.RegisterAll | src/main/model/core/GamePluginLoader.java:164-174 | the map after the ServiceLoader loop: each yielded plugin registered in turn, a taken name ignored |
| Loader.NewCount | src/main/model/core/GamePluginLoader.java:163-174 | `loadedCount`: how many of the yielded plugins were put in the map rather than ignored |
| Loader.RegisterSize | src/main/model/core/GamePluginLoader.java:167-170 | a registration grows the map by one exactly when the name is new |
| Loader.RegisterAllKeeps | src/main/model/core/GamePluginLoader.java:164-174 | the first registration under a name wins, and a map keyed by name stays keyed by name |
| Loader.Names | src/main/model/core/GamePluginLoader.java:165 | every plugin's name is among the names |
| Loader.NamesFrom | src/main/model/core/GamePluginLoader.java:165 | every name belongs to one of the plugins |
| Loader.RegisterAllNames | src/main/model/core/GamePluginLoader.java:164-174 | the names registered are the old ones and those of the plugins yielded |
| Loader.RegisterAllGrowth | src/main/model/core/GamePluginLoader.java:163-174 | loadedCount is exactly the growth of the map |
| Loader.NewCountZero | src/main/model/core/GamePluginLoader.java:176 | nothing new is registered exactly when every name yielded is taken, and then the map is unchanged |
| Loader.ClassName | src/main/model/core/GamePluginLoader.java:199-201 | the intended class name: the entry path without its ".class" suffix, with '.' for '/' |
| Loader.ClassNameAgrees | src/main/model/core/GamePluginLoader.java:199-201 | where the path holds no other ".class", the name as written equals the intended one |
| Loader.ReplaceAllMangles | src/main/model/core/GamePluginLoader.java:201 | deleting every ".class" from "a.classB.class" gives "aB" |
| Loader.ClassNameMangled | src/main/model/core/GamePluginLoader.java:199-201 | for the entry "a/classB.class" the intended name is "a.classB", but the name as written is "aB" |
| Loader.SlashToDot | src/main/model/core/GamePluginLoader.java:200 | turning the one '/' of a path into '.' gives the expected name |
| Loader.ClassNameAsWritten | src/main/model/core/GamePluginLoader.java:199-201 | the class name as the scan computes it: every '/' turned into '.', then every ".class" deleted, not only the suffix |
| Loader.NoDollarInClassName | src/main/model/core/GamePluginLoader.java:198-205 | the class name the scan computes from a class entry never contains '$', so of the two skip tests only the META-INF one can apply |
| Loader.Tried | src/main/model/core/GamePluginLoader.java:198-208 | the scan loads the class of an entry that ends in ".class", holds no '$', and whose computed class name does not start with META-INF |
| Loader.Accepts | src/main/model/core/GamePluginLoader.java:207-217 | the scan offers an entry's instance: the class is tried and loading it gave a concrete GamePlugin instance |
| Loader.Escapes | src/main/model/core/GamePluginLoader.java:207-221 | loading the class of a tried entry raises an Error that the `catch` does not take |
| Loader.Judge | src/main/model/core/GamePluginLoader.java:198-221 | the scan's decision for one entry offers a plugin only when loading its class gave that very plugin |
| Loader.JudgeMeans | src/main/model/core/GamePluginLoader.java:198-221 | the decision offers a plugin exactly for the entries the scan accepts, and is an Error exactly for those whose Error escapes |
| Loader.JudgedAt | src/main/model/core/GamePluginLoader.java:195-222 | the decisions of a run of entries are taken entry by entry, in order |
| Loader.OffersFrom | src/main/model/core/GamePluginLoader.java:198-221 | every plugin a run of decisions offers comes from one of them |
| Loader.Instances | src/main/model/core/GamePluginLoader.java:195-222 | the manual scan offers at most one plugin per entry, taken from the class its computed name loads |
| Loader.InstancesFrom | src/main/model/core/GamePluginLoader.java:198-221 | every plugin offered comes from an entry whose computed class name is not skipped and loads a concrete plugin |
| Loader.ManualScanStep | src/main/model/core/GamePluginLoader.java:195-222 | one more decision registers its instance after the others exactly when it offers one |
| Loader.FirstError | src/main/model/core/GamePluginLoader.java:195-222 | the index of the first decision that is an Error, or the end: none before it is one, and the one at it is |
| Loader.ManualLoad | src/main/model/core/GamePluginLoader.java:189-226 | the manual scan never throws once the jar is open |
| Loader.ManualLoadErrors | src/main/model/core/GamePluginLoader.java:195-222 | an Error leaves the manual scan exactly when some entry raises one |
| Loader.LoadJar | src/main/model/core/GamePluginLoader.java:151-186 | loading one jar: the service pass registers what it yields; its Error leaves at once; when it registered nothing new, the manual scan runs on the opened jar, and an unopenable jar throws |
| Loader.LoadJarProps | src/main/model/core/GamePluginLoader.java:151-186 | loading a jar keeps every registered plugin and the name keying; it throws exactly when the manual scan is needed and the jar cannot be opened; an Error leaves it exactly when the service pass raises one, or the manual scan is needed and one of its entries raises one |
| Loader.DuplicatesScanManually | src/main/model/core/GamePluginLoader.java:176-179 | a service pass made only of duplicates still leads to the manual scan, which starts from the unchanged registry and decides the outcome |
| Loader.IsJarName | src/main/model/core/GamePluginLoader.java:43 | a file name whose lower-cased form ends in ".jar" |
| Loader.JarsOnly | src/main/model/core/GamePluginLoader.java:43 | the listing keeps exactly the files whose lower-cased name ends in ".jar" |
| Loader.BatchStep | src/main/model/core/GamePluginLoader.java:54-63 | one file of the listing: skipped when its name was loaded; otherwise the jar is loaded, its name recorded only on a normal return, and an Error aborts |
| Loader.Batch | src/main/model/core/GamePluginLoader.java:53-64 | the files of the listing in order, stopping at the first that aborts |
| Loader.BatchAppend | src/main/model/core/GamePluginLoader.java:53-64 | a batch over a concatenation is a batch over each part in turn, unless an Error in the first part ended it |
| Loader.BatchProps | src/main/model/core/GamePluginLoader.java:53-64 | the batch keeps registered plugins and the name keying, keeps the recorded names, records only names of the files given, and ends early only at a jar that can raise an Error |
| Loader.ErrorEndsBatch | src/main/model/core/GamePluginLoader.java:53-73 | a jar whose service pass raises an Error ends the batch: it and every later jar stay unrecorded |
| Loader.BatchSkipsLoaded | src/main/model/core/GamePluginLoader.java:56 | files whose names were all loaded before are all skipped, and the batch runs to the end |
| Loader.ShouldLoad | src/main/model/core/GamePluginLoader.java:100-109 | the watcher loads a file exactly for a create or modify event on a ".jar" name, in any case, of a file that exists and is not among the loaded jar names |
| Loader.WatchStep | src/main/model/core/GamePluginLoader.java:98-126 | one watch event: a create or modify of an existing, unloaded ".jar" loads the jar, records its name and queues the callback on a normal return, and reports an Error; other events change nothing |
| Loader.WatchAll | src/main/model/core/GamePluginLoader.java:94-137 | the events of one key in order, stopping at the first Error, counting the callbacks queued |
| Loader.WatchOnce | src/main/model/core/GamePluginLoader.java:100-118 | a jar the watcher loaded without an exception is not loaded again by a later event for it |
| Loader.WatchAllNext | src/main/model/core/GamePluginLoader.java:94-126 | a watcher still running handles one more event as the single-event step says, counting a callback when one is queued |
| Loader.WatchAllStops | src/main/model/core/GamePluginLoader.java:94-137 | once an Error has ended the watcher thread, later events change nothing |
| Loader.WatchAllProps | src/main/model/core/GamePluginLoader.java:94-137 | at most one callback per event and none without a callback; registered plugins and the keying stay; only the events' names are recorded; the thread dies only at a jar that can raise an Error |
| Loader.PluginLoader.constructor | src/main/model/core/GamePluginLoader.java:22-25 | nothing is loaded, no jar is recorded, no watcher exists or runs, no callback |
| Loader.PluginLoader.SetOnPluginAddedCallback | src/main/model/core/GamePluginLoader.java:147-149 | the callback is set and nothing else changes |
| Loader.PluginLoader.LoadPluginsManually | src/main/model/core/GamePluginLoader.java:189-226 | an unopenable jar throws and registers nothing; otherwise the entries are scanned by their computed class names until one raises an Error, and registry and outcome are those of the manual load |
| Loader.PluginLoader.LoadPluginFromJar | src/main/model/core/GamePluginLoader.java:151-186 | the registry and the outcome are those of the jar's load: an Error of the service pass leaves at once; the manual scan runs when the pass registered nothing new, and again when it throws |
| Loader.PluginLoader.RegisterServices | src/main/model/core/GamePluginLoader.java:163-174 | the loop registers the yielded plugins in order, and loadedCount counts the new ones |
| Loader.PluginLoader.ScanEntry | src/main/model/core/GamePluginLoader.java:198-221 | one entry, by the scan's decision for its computed class name: an offered plugin is registered unless its name is taken; an Error is reported; anything else changes nothing |
| Loader.PluginLoader.ScanJarFile | src/main/model/core/GamePluginLoader.java:54-63 | a jar not loaded before is loaded, and its name recorded only when that returns normally; an exception is caught, an Error ends the loop |
| Loader.PluginLoader.ScanAll | src/main/model/core/GamePluginLoader.java:53-64 | the loop over the listing ends as the batch does: at its end, or at the first jar whose load raised an Error |
| Loader.PluginLoader.StartDirectoryWatcher | src/main/model/core/GamePluginLoader.java:75-145 | the watcher is started and its thread runs unless a watch service already existed, in which case nothing changes |
| Loader.PluginLoader.LoadExternalGames | src/main/model/core/GamePluginLoader.java:34-73 | the registry becomes the batch over the ".jar" files of the listing, up to the first Error; without an Error the watcher is started, once; after one the watcher is left as it was |
| Loader.PluginLoader.OnWatchEvent | src/main/model/core/GamePluginLoader.java:98-126 | a create or modify event for an existing, unloaded ".jar" is loaded, recorded when the load returns normally, and then queues the callback when set; an Error is reported; any other event changes nothing |
| Loader.PluginLoader.OnWatchKey | src/main/model/core/GamePluginLoader.java:92-137 | an ended watcher handles nothing; a running one handles the key's events in order as the watcher fold does, stops at the first Error, and runs on only when no Error came and the key is still valid |
| Loader.PluginLoader.WatchEvents | src/main/model/core/GamePluginLoader.java:94-126 | the events of one key are handled in order as the watcher fold does, and the loop is left at the first Error |
| Loader.PluginLoader.GetLoadedPlugins | src/main/model/core/GamePluginLoader.java:228-230 | a new list holding each registered plugin once |
| Loader.PluginLoader.HasPlugins | src/main/model/core/GamePluginLoader.java:232-234 | true exactly when some plugin is registered |
| Loader.PluginLoader.LoadPluginInteractive | src/main/model/core/GamePluginLoader.java:236-265 | a cancelled choice does nothing; a failed copy shows the error; otherwise the jar is loaded, and a normal return shows the success dialog, an exception the error dialog, and an Error no dialog; no jar name is recorded |
| Controller.Merge | src/main/controller/MainController.java:80-85 | the merge loop: each plugin in turn is appended unless the list already holds that very object |
| Controller.MergeProps | src/main/controller/MainController.java:80-85 | the old list is a prefix of the merged one, which holds exactly the old games and the plugins, so a duplicate-free list stays duplicate-free |
| Controller.MergeUnchanged | src/main/controller/MainController.java:104-113 | nothing is appended exactly when every plugin is already listed |
| Controller.MergeAgain | src/main/controller/MainController.java:105-111 | merging the same plugins again, in any order, appends nothing |
| Controller.ScoreWrites | src/main/controller/MainController.java:161 | the `updateScore(name, score)` calls a run of callbacks makes in the controller: one per onGameFinished delivery to it, with that event's name and score, in order |
| Controller.ScoreWritesAppend | src/main/controller/MainController.java:161 | the score writes of two runs of callbacks are those of each in turn |
| Controller.NoFinishedNoWrites | src/main/controller/MainController.java:174-189 | callbacks other than onGameFinished write no score |
| Controller.StopIsNotRecorded | src/main/model/games/AhorcadoGame.java:125 | a stopGame announcement goes through onGameStateChanged and never reaches the score table |
| Controller.AbsentNoWrites | src/main/controller/MainController.java:161 | a listener that is not subscribed writes nothing |
| Controller.FinishedRecordedOnce | src/main/controller/MainController.java:161 | a GAME_FINISHED event makes the subscribed controller write the event's name and score exactly once |
| Controller.ErrorDialog | src/main/controller/MainController.java:193-203 | the dialog reads "Error en name: message", a null message printing as "null"; a message that is an exception, or an exception entry that is a string, fails its cast and shows no dialog |
| Controller.MainController.constructor | src/main/controller/MainController.java:23-52 | the callback is set and Tic-Tac-Toe and Ahorcado come first; the loader has scanned the listing; an Error of the scan is a failed start with only the two games listed and no watcher; otherwise the watcher runs and every registered plugin is listed; no game is current and the table is empty |
| Controller.MainController.InitializeComponents | src/main/controller/MainController.java:35-52 | on a new controller and loader: the callback is set, the two built-in games come first, the loader scans the listing; after an Error only the two games are listed and no watcher runs; otherwise the watcher runs and every registered plugin is listed |
| Controller.MainController.LoadInternalGames | src/main/controller/MainController.java:54-71 | Tic-Tac-Toe then Ahorcado, each a new game, are appended |
| Controller.MainController.LoadExternalGames | src/main/controller/MainController.java:73-98 | the loader scans the listing, then the merge appends the loader's plugins not yet listed; an Error of the scan passes the handler, and then nothing is listed |
| Controller.MainController.ReloadExternalGames | src/main/controller/MainController.java:100-122 | the same merge; `updated` is true exactly when some plugin was not listed before |
| Controller.MainController.GetAvailableGames | src/main/controller/MainController.java:125-127 | a copy of the list |
| Controller.MainController.GetTopScores | src/main/controller/MainController.java:152-154 | the numbered score lines of the game's table |
| Controller.MainController.StopCurrentGame | src/main/controller/MainController.java:132-134 | a running current game is stopped with GAME_FINISHED as a state change; a stopped one is left alone |
| Controller.MainController.SubscribeAndRestart | src/main/controller/MainController.java:136-138 | the controller is subscribed and the game restarted, so it runs; a game that was stopped announces GAME_STARTED to all its listeners, the controller included |
| Controller.MainController.SelectGame | src/main/controller/MainController.java:130-149 | the chosen game becomes current, gets the controller as listener, and runs; it sees only state-change events, ending with GAME_STARTED when restarted from stopped; a different previous game is stopped only if it was running, with no listener removed |
| Controller.MainController.OnGameFinished | src/main/controller/MainController.java:157-171 | one updateScore with the event's name and score |
| Controller.MainController.OnGameError | src/main/controller/MainController.java:192-206 | the dialog is the one for the event's name and its "errorMessage" and "exception" entries |
| Controller.MainController.Receive | src/main/controller/MainController.java:157-189 | only an onGameFinished callback changes the score table; the others leave it unchanged |

## Left out

- All of the Swing UI is not part of this model. That covers `MainView.java`, the panels and CardLayout screens, button states, drawing, images, status labels, and the JOptionPane dialogs. Only the dialog outcome and text are modelled.
- Class loading and reflection (`URLClassLoader`, `ServiceLoader`, `JarFile`, `newInstance`) are not executed: a jar is an abstract value with its service result and entries, and a plugin is one of the three engines of the repository.
- Concurrency and timing are not modelled. This covers:
  - the watcher thread, its blocking `take` and `Thread.sleep(500)`;
  - `SwingUtilities.invokeLater`;
  - Ahorcado's delayed reset after a round;
  - Pac-Man's sleep-then-stop after the last life;
  - the Swing timer, which is only a `timerRunning` flag.

  The watcher is modelled per event and per key.
- File I/O is not modelled: creating directories, copying files, and reading or writing `data/scores.json` with Gson. The scores file starts absent, so the table starts empty. A save is a boolean outcome, and a failed save is modelled as leaving the stored table as it was, although `new FileWriter` truncates the file before the write can fail, so that table may really be left empty or partly written.
- Timestamps are not modelled: the event's `new Date()`, and `SimpleDateFormat` output, which is an opaque formatted string.
- Singletons, `getInstance`/`createInstance`, `main`, logging, `printAllScores`, `getGamePanel` and `getInstance` of the games are all left out. The singletons are single constructed objects.
- Exceptions thrown by listeners are not modelled.
- Errors of the loader are modelled where the code lets them escape. A ServiceConfigurationError of the service pass, and an Error other than NoClassDefFoundError raised while a class of the manual scan loads or is constructed (an ExceptionInInitializerError, say), pass every `catch (Exception e)`. The model records them as the `Errored` outcome. It stops the batch before the watcher starts, ends the watcher thread, shows no interactive dialog, and, at startup, is `startupFailed`. What the escaping Error does after that (an uncaught-exception handler, a failed `getInstance`) is not modelled. Neither is the open `JarFile` that the manual scan then never closes.
- A jar's entry outcome is the outcome of loading the class name as the scan computes it from the entry (`ClassNameAsWritten`), which may differ from the class the entry holds.
- A failure of `startDirectoryWatcher` itself (no watch service, no directory), which it catches, is not modelled: the watcher starts whenever it is asked to for the first time.
- The watcher thread's InterruptedException exit is not modelled: the thread ends only on an Error or an invalid key.
- A null `listFiles` result is treated as an empty listing.
- A jar whose enumeration fails half way is not modelled: opening either works or throws.
- `refreshGamesList` is called but not defined in the view; only the `updated` flag is modelled.
- Integers are unbounded: scores, tallies and counters never wrap around in the model.
- `toLowerCase` is modelled for ASCII letters only.
- HashMap and HashSet order: `GetLoadedPlugins` promises each plugin once in some order. Pac-Man's block sets are sequences in scan order, with blocks as values rather than objects.
- Ghost directions are a nondeterministic choice, not `Random`.
- Controller.MainController.SelectGame: requires that the previous and the chosen games share no state unless they are the same game. It does not restate the controller's own invariant, which its frame leaves untouched.
- Controller.MainController.constructor: states which plugins are listed (the two built-in games, and the loader's plugins) rather than the exact merged order after the built-in games; the merge order is LoadExternalGames's contract.
- Ahorcado.AhorcadoGame.PressLetter: states only the running guard. The effect of a press while running is ProcessLetter's contract.
- The games list skips a plugin already in it by object identity (`contains`), not by game name, so two plugin objects with the same name can both be listed.
- The interactive load does not add the jar's name to `loadedJarFiles`, so the watcher or a later scan may load the same jar again. The model follows the code.

## Findings

| source | as written | input that shows it | evidently intended | confidence | as-written member | corrected member |
|---|---|---|---|---|---|---|
| src/main/model/core/GamePluginLoader.java:199-201 | `replace(".class", "")` deletes every occurrence of ".class" in the path, not only the suffix | the entry "a/classB.class" becomes "aB" | the class name "a.classB", the path without its ".class" suffix | not executed | Loader.ClassNameMangled | Loader.ClassName |
