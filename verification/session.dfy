/** One session of the program: load the saved game (dropping a finished
    one), set up a new game when there is none, play one turn, save.
    The save file is a parameter and a result: `None` stands for no file. */
module Session {
  import opened Seeds
  import opened Board
  import opened Sowing
  import opened Game

  datatype Option<T> = None | Some(value: T)

  /** A game that was set up and is no longer playable is over. */
  predicate Finished(s: GameState)
  {
    s.hasGameBeenSetup && !s.gameIsPlayable
  }

  /** Reading the save file: a finished game is discarded, anything else is
      kept as it is. */
  function LoadGame(file: Option<GameState>): (r: Option<GameState>)
    ensures r.Some? ==> r == file && !Finished(r.value)
    ensures r.None? ==> file.None? || Finished(file.value)
  {
    if file.Some? && Finished(file.value) then None else file
  }

  /** What a session reports: the turn's outcome, or the winner. */
  datatype Report = TurnReport(outcome: Outcome) | WinnerReport(winner: Winner)

  datatype Checked = Checked(state: GameState, report: Report)

  /** A playable game takes a turn; any other announces the winner. */
  function CheckGameState(s: GameState, username: string, input: PitInput): (r: Checked)
    requires WellFormed(s)
    ensures s.gameIsPlayable ==> r.state == Turn(s, username, input).state
    ensures s.gameIsPlayable ==> r.report == TurnReport(Turn(s, username, input).outcome)
    ensures !s.gameIsPlayable ==> r.state == s && r.report == WinnerReport(AnnounceWinner(s))
  {
    if s.gameIsPlayable then
      var t := Turn(s, username, input);
      Checked(t.state, TurnReport(t.outcome))
    else Checked(s, WinnerReport(AnnounceWinner(s)))
  }

  /** The save file and the report after a session. */
  datatype SessionResult = SessionResult(file: Option<GameState>, report: Option<Report>)

  /** A saved game the session may use as it is: one that was set up and is
      still playable. */
  predicate Resumable(file: Option<GameState>)
  {
    file.Some? && file.value.hasGameBeenSetup && file.value.gameIsPlayable
  }

  /** The saved game a session starts from: the file's when it is
      resumable, a new game otherwise. */
  function Starting(file: Option<GameState>): (s: GameState)
    requires Resumable(file) ==> WellFormed(file.value)
    ensures WellFormed(s) && s.hasGameBeenSetup && s.gameIsPlayable
    ensures Resumable(file) ==> s == file.value
    ensures !Resumable(file) ==> s == SetupGame()
  {
    var loaded := LoadGame(file);
    if loaded.None? || !loaded.value.hasGameBeenSetup then SetupGame() else loaded.value
  }

  /** One session: a console line's name and pit selection, played against
      the save file. A session always finds a playable game, so it always
      plays a turn and saves the result: the winner announcement is never
      reached, and a game ended by the turn is saved finished, to be replaced
      by a new game in the next session. */
  function InitializeSession(file: Option<GameState>, username: string, input: PitInput): (r: SessionResult)
    requires Resumable(file) ==> WellFormed(file.value)
    ensures r.file.Some? && r.report.Some? && r.report.value.TurnReport?
    ensures r.file.value == Turn(Starting(file), username, input).state
    ensures r.report.value.outcome == Turn(Starting(file), username, input).outcome
    ensures r.file.value.hasGameBeenSetup
  {
    var s := Starting(file);
    if s.gameIsPlayable then
      var c := CheckGameState(s, username, input);
      SessionResult(Some(c.state), Some(c.report))
    else SessionResult(file, None)
  }

  /** A turn keeps a consistent game consistent: 48 seeds, none negative. */
  lemma TurnKeepsConsistent(s: GameState, username: string, input: PitInput)
    requires Consistent(s)
    ensures Consistent(Turn(s, username, input).state)
  {
    if Turn(s, username, input).outcome == GameEnded {
      EndCheckKeepsNonNegative(s);
    } else {
      GateKeepsNonNegative(s.(gameIsPlayable := true), username, input);
    }
  }

  lemma GateKeepsNonNegative(s: GameState, username: string, input: PitInput)
    requires WellFormed(s) && NonNegative(s.player1.board) && NonNegative(s.player2.board)
    ensures var t := Gate(s, username, input).state;
      NonNegative(t.player1.board) && NonNegative(t.player2.board)
  {
    var g := Gate(s, username, input);
    if g.outcome !in {NoInput, WrongPlayer} && !g.outcome.IllegalMove? {
      PlayPitKeepsNonNegative(s, input.value - 1);
    }
  }

  lemma EndCheckKeepsNonNegative(s: GameState)
    requires WellFormed(s) && NonNegative(s.player1.board) && NonNegative(s.player2.board)
    ensures var t := CheckForEndOfGame(s).state;
      NonNegative(t.player1.board) && NonNegative(t.player2.board)
  {
    SweepKeepsNonNegative(s.player1.board);
    SweepKeepsNonNegative(s.player2.board);
  }

  lemma PlayPitKeepsNonNegative(s: GameState, pit: int)
    requires WellFormed(s) && NonNegative(s.player1.board) && NonNegative(s.player2.board)
    requires 0 <= pit < Pits && CurrentPlayer(s).board[pit] > 0
    ensures var t := PlayPit(s, pit).state;
      NonNegative(t.player1.board) && NonNegative(t.player2.board)
  {
    DistributeKeepsNonNegative(CurrentPlayer(s).board, OpponentPlayer(s).board, pit);
  }

  lemma SweepKeepsNonNegative(b: seq<int>)
    requires Shaped(b) && NonNegative(b)
    ensures NonNegative(Sweep(b))
  {
    assert NonNegative(b[..Pits]);
    SumNonNegative(b[..Pits]);
  }

  /** The save file after a sequence of sessions, one per (name, selection). */
  function Sessions(file: Option<GameState>, runs: seq<(string, PitInput)>): (r: Option<GameState>)
    requires file.Some? ==> Consistent(file.value)
    ensures r.Some? ==> Consistent(r.value)
    ensures |runs| > 0 ==> r.Some?
    decreases |runs|
  {
    if |runs| == 0 then file
    else
      var next := InitializeSession(file, runs[0].0, runs[0].1).file;
      TurnKeepsConsistent(Starting(file), runs[0].0, runs[0].1);
      Sessions(next, runs[1..])
  }

  /** Every saved game the program ever writes, starting without a save
      file, holds exactly 48 seeds and no negative cell; so no cell exceeds
      48 and the program's 32-bit arithmetic never overflows. */
  lemma SavedGamesKeepSeeds(runs: seq<(string, PitInput)>)
    requires |runs| > 0
    ensures var r := Sessions(None, runs);
      && r.Some? && WellFormed(r.value)
      && TotalSeeds(r.value) == TotalSeedsAtStart
      && (forall i :: 0 <= i < Size ==> 0 <= r.value.player1.board[i] <= TotalSeedsAtStart)
      && (forall i :: 0 <= i < Size ==> 0 <= r.value.player2.board[i] <= TotalSeedsAtStart)
  {
    var s := Sessions(None, runs).value;
    forall i | 0 <= i < Size
      ensures 0 <= s.player1.board[i] <= TotalSeedsAtStart
      ensures 0 <= s.player2.board[i] <= TotalSeedsAtStart
    {
      SumBoundsCell(s.player1.board, i);
      SumBoundsCell(s.player2.board, i);
      SumNonNegative(s.player1.board);
      SumNonNegative(s.player2.board);
    }
  }
}
