# Mancala (Kalah) rules engine in Dafny

This project models the rules engine of a two-player console Mancala game
in its Kalah variant. Each player owns a board of seven cells: six pits
(indices 0..5), then a store (index 6). A new game puts four seeds in every
pit, 48 seeds in all. Player1 moves first. The program reads console lines
in a loop, and each line (a name and a pit selection) runs one session. A
session loads the saved game, or sets up a new one. It then checks whether
the game is over, plays the named player's chosen pit, and saves. The first
session runs with an empty name and an empty selection.

The model is a set of pure functions over immutable values:

- `Seeds`: seed counts (`Sum`) and non-negativity.
- `Board`: one player's board. It holds the legal pits (`LegalMoves`)
  and the end-of-game sweep of a row into its store (`Sweep`).
- `Sowing`: the move itself.
  - `Distribute` is a closed-form reference. It lays the path of a move out
    as a ring of 13 slots: the mover's six pits and store, then the
    opponent's six pits. The opponent's store is passed over.
  - `Move` is the slot-by-slot loop of the program. It is proved to give
    exactly `Distribute`'s result.
  - Lemmas cover conservation of seeds, the extra-turn rule and the capture
    rule.
- `Game`: the saved state record and the setup of a new game. It also holds
  the end-of-game check, the turn (end check, name check, pit check, move)
  and the winner comparison.
- `Session`: one session against a save file, which is a
  parameter and a result. A finished game in the file is discarded.
  `SavedGamesKeepSeeds` shows that every game the program ever saves still
  holds 48 seeds with no negative cell. The program's 32-bit arithmetic
  therefore never overflows.
- `Scenarios`: concrete games worked through the model.

Two behaviours of the program follow from the code and are stated as
proved properties:

- The end-of-game check runs only at the start of a turn. A move that
  empties a row leaves the game playable until the next session
  (`Scenarios.EmptyRowEndsGameAtNextTurn`).
- Every session finds a playable game: a finished one is dropped on
  loading. So every session plays a turn, and the winner comparison is never reached
  from a session (`Session.InitializeSession`). The comparison is still
  modelled on its own (`Game.AnnounceWinner`).

## Model

| member | source | states |
|---|---|---|
| Board.LegalMoves | Mancala/MancalaGame.cs:192-201 | the selectable pit numbers are exactly 1..6 whose pit holds seeds, strictly ascending, never the store |
| Board.SweepUpTo | Mancala/MancalaGame.cs:116-120 | after the sweep loop's first k steps, those k pits are empty, the rest unchanged, the store holds its old seeds plus the k pits' seeds |
| Board.Sweep | Mancala/MancalaGame.cs:128-132 | sweeping a row empties all six pits into the store, which grows by exactly the pits' total; the board's seed total is unchanged |
| Board.NoMovesIffPitsEmpty | Mancala/MancalaGame.cs:113-114 | for a non-negative row, having no legal move is the same as its pits holding no seeds |
| Game.CreatePlayer | Mancala/MancalaGame.cs:78-84 | a new player keeps the given name, has four seeds in each pit and an empty store (24 seeds), and may choose any of pits 1..6 |
| Game.SetupGame | Mancala/MancalaGame.cs:65-76 | a new game is set up, playable, with Player1 to move, named Player1 and Player2, both boards fresh, 48 seeds, none negative |
| Game.CurrentPlayer | Mancala/MancalaGame.cs:245-248 | Player1 is current when it is Player1's turn; the current and the opponent player are the two players of the game, one each; flipping the turn makes the current player the opponent |
| Game.OpponentPlayer | Mancala/MancalaGame.cs:240-243 | the opponent is Player2 when it is Player1's turn, and always one of the game's two players; with `CurrentPlayer`'s clauses it is the player not on turn |
| Game.CheckForEndOfGame | Mancala/MancalaGame.cs:111-137 | play goes on exactly when both rows have a legal move, and then nothing changes; if Player1 has none, Player2's pits are swept into Player2's store; else if Player2 has none, Player1's are swept; seeds and flags are kept |
| Game.EndCheckOrderIrrelevantWhenBothEmpty | Mancala/MancalaGame.cs:111-137 | when both rows are empty, checking Player1 first changes nothing: the check only ends the game |
| Game.Turn | Mancala/MancalaGame.cs:86-89 | a turn ends the game exactly when a row has no legal move, storing the check's sweep and clearing the playable flag; otherwise it continues with the name and pit checks; seeds, names and the setup flag are kept |
| Game.Gate | Mancala/MancalaGame.cs:91-99 | a blank name with blank input does nothing; a name that differs from the current player's in more than letter case is rejected with no change; otherwise the pit selection decides |
| Game.PickPit | Mancala/MancalaGame.cs:101-108 | a selection that is not a number naming a non-empty pit 1..6 is rejected with the list of legal pits and no change; a legal one is played; the turn passes exactly when the move was applied without an extra turn |
| Game.PlayPit | Mancala/MancalaGame.cs:139-181 | playing a pit gives the boards of the sowing, keeps the opponent's store and all seeds, and passes the turn unless the last seed fell into the mover's store |
| Game.AnnounceWinner | Mancala/MancalaGame.cs:59 | Player1 wins exactly when their store is larger, Player2 exactly when theirs is, a tie exactly when they are equal |
| Sowing.Capture | Mancala/MancalaGame.cs:164-170 | a capture moves the last seed and all seeds of the facing pit into the mover's store, empties the facing pit, leaves every other slot alone, and adds exactly the one seed |
| Sowing.Move | Mancala/MancalaGame.cs:139-190 | the sowing loop ends with exactly the boards and extra-turn flag of the ring reference `Distribute`, and never touches the opponent's store |
| Sowing.SowSlot | Mancala/MancalaGame.cs:147-177 | one pass of the loop keeps the walk on the ring's landing slots and shortens what is left of the walk; its early return happens only on the last seed, in the mover's store, and yields `Distribute`'s result with an extra turn |
| Sowing.DistributeConserves | Mancala/MancalaGame.cs:141-177 | a move neither creates nor destroys seeds: both boards together hold as many as before |
| Sowing.DistributeKeepsNonNegative | Mancala/MancalaGame.cs:141-177 | a move on non-negative boards leaves every cell non-negative |
| Sowing.ExtraTurnIff | Mancala/MancalaGame.cs:147-154 | the mover plays again exactly when the seed count n from pit p satisfies n mod 13 = 6 - p |
| Sowing.ChosenPitEmptied | Mancala/MancalaGame.cs:141-142 | a move of fewer than 13 seeds leaves the chosen pit empty |
| Sowing.CaptureWithinRow | Mancala/MancalaGame.cs:162-170 | n seeds from pit p whose last seed reaches the empty own pit p + n facing seeds: that pit stays empty, the facing pit is emptied into the store with the last seed, the turn passes, the pits in between gain one seed, nothing else changes |
| Sowing.CaptureOnFullLap | Mancala/MancalaGame.cs:162-170 | 13 seeds make a full lap: every other cell gains one, the last seed returns to the emptied chosen pit and captures the facing pit, the store gains 1 + 1 + the facing pit's seeds |
| Sowing.OnlyOwnRowCaptures | Mancala/MancalaGame.cs:160-177 | when the last seed lands in the store or on the opponent's row, the move takes no seed from the opponent, takes none from any cell but the chosen pit, and feeds the store |
| Sowing.SpreadOneLap | Mancala/MancalaGame.cs:145-177 | within one lap each slot receives at most one seed: exactly the k slots after the chosen pit gain one |
| Session.LoadGame | Mancala/MancalaGame.cs:34-43 | a saved game that was set up and is no longer playable is dropped; anything else is kept as saved |
| Session.Starting | Mancala/MancalaGame.cs:24-25 | a session resumes a saved game that was set up and is playable, and starts a new game otherwise |
| Session.CheckGameState | Mancala/MancalaGame.cs:51-55 | a playable game plays the turn, keeps the turn's resulting state and reports its outcome; any other game is left unchanged and reports the winner |
| Session.InitializeSession | Mancala/MancalaGame.cs:15-32 | every session plays a turn on the starting game and saves its result; the report is always a turn outcome, never a winner |
| Session.TurnKeepsConsistent | Mancala/MancalaGame.cs:86-108 | a turn keeps well-shaped boards, 48 seeds and no negative cell |
| Session.SavedGamesKeepSeeds | Mancala/MancalaGame.cs:15-32 | every game saved by a sequence of sessions started without a save file holds 48 seeds, with every cell between 0 and 48 |
| Scenarios.ExtraTurnFromPitFive | Mancala/MancalaGame.cs:147-154 | two seeds from pit 5 end in the store: Player1 moves again |
| Scenarios.CaptureFromPitOne | Mancala/MancalaGame.cs:162-170 | one seed into an empty pit facing three seeds puts four in the store and passes the turn; the name matches in any letter case |
| Scenarios.EmptyPitRejected | Mancala/MancalaGame.cs:101-106 | choosing an empty pit is rejected with the list 1,2,4,5,6 and no change |
| Scenarios.OtherPlayerRejected | Mancala/MancalaGame.cs:95-99 | the player not on turn is rejected with no change |
| Scenarios.EmptyRowEndsGameAtNextTurn | Mancala/MancalaGame.cs:111-122 | a move that empties Player1's row earns an extra turn and the game stays playable; the next turn's check sweeps Player2's 30 pit seeds into their store and Player2 wins |

## Left out

- Reading and writing the save file and its JSON format: the file is an `Option<GameState>` passed in and returned.
- The console loop in Mancala/Program.cs, which splits a line into name and selection and runs one session per line.
- Rendering the boards (`PrintPlayerBoard`) and all feedback strings. An outcome value is reported instead, and the list of legal pits is kept for a rejected selection.
- Parsing the selection with `short.TryParse`: the selection arrives as `Blank`, `NotANumber` or `Number(n)`. A number outside the 16-bit range, which fails to parse in the program, is rejected the same way because no such number is a legal pit.
- Game.Lower: culture-sensitive lower-casing is modelled for ASCII letters only, so names with other letters may compare differently.
- A null name, which makes the program throw. Mancala/Program.cs never passes one.
- 32-bit integer arithmetic: cells are unbounded integers. `Session.SavedGamesKeepSeeds` shows that no cell of a game the program saves exceeds 48. A hand-edited save file with huge counts, where the program would wrap around, is not modelled.
- Boards of any length other than seven: every operation requires seven cells, the shape the game allocates and saves.
- Sowing.DistributeConserves: seed conservation is promised only when the chosen pit is non-negative. Emptying a pit with a negative count, possible only in a hand-edited save, creates seeds.
- The `MoveStandardSpot` helper is written out inline in `Sowing.SowSlot`.
- The source of the `Player` class is not part of this model: `Game.Player` takes its two fields, a name and a board, from how the game uses them.
