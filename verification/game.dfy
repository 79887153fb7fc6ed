/** The game: the saved state record, setting up a game, the end-of-game
    check with its sweep, the turn gate and the winner comparison. */
module Game {
  import opened Seeds
  import opened Board
  import opened Sowing

  /** A player: a name and a board of six pits and a store. */
  datatype Player = Player(name: string, board: seq<int>)

  /** Everything the game keeps between sessions. */
  datatype GameState = GameState(
    hasGameBeenSetup: bool,
    gameIsPlayable: bool,
    isPlayer1Turn: bool,
    player1: Player,
    player2: Player)

  /** Seeds in each pit of a new board. */
  const SeedsPerPit := 4
  /** Seeds on the whole table of a new game. */
  const TotalSeedsAtStart := 2 * Pits * SeedsPerPit

  /** Both boards have the shape the game allocates. */
  predicate WellFormed(s: GameState)
  {
    Shaped(s.player1.board) && Shaped(s.player2.board)
  }

  /** All seeds on the table, stores included. */
  function TotalSeeds(s: GameState): int
    requires WellFormed(s)
  {
    Sum(s.player1.board) + Sum(s.player2.board)
  }

  /** The condition every state of a game started by `SetupGame` keeps:
      well-shaped boards, no negative cell, and the 48 seeds of the start. */
  predicate Consistent(s: GameState)
  {
    && WellFormed(s)
    && NonNegative(s.player1.board) && NonNegative(s.player2.board)
    && TotalSeeds(s) == TotalSeedsAtStart
  }

  /** A new player: four seeds in each pit, an empty store. */
  function CreatePlayer(name: string): (p: Player)
    ensures p.name == name && Shaped(p.board) && NonNegative(p.board)
    ensures forall i :: 0 <= i < Pits ==> p.board[i] == SeedsPerPit
    ensures p.board[Store] == 0
    ensures Sum(p.board) == Pits * SeedsPerPit
    ensures LegalMoves(p.board) == [1, 2, 3, 4, 5, 6]
  {
    var b := [4, 4, 4, 4, 4, 4, 0];
    SumPitsAndStore(b);
    assert b[..Pits] == seq(Pits, i => SeedsPerPit);
    ConstantSum(Pits, SeedsPerPit);
    Player(name, b)
  }

  /** A new game: Player1 to move, both boards fresh, 48 seeds in play. */
  function SetupGame(): (s: GameState)
    ensures s.hasGameBeenSetup && s.gameIsPlayable && s.isPlayer1Turn
    ensures s.player1.name == "Player1" && s.player2.name == "Player2"
    ensures Consistent(s)
    ensures s.player1.board == s.player2.board == [4, 4, 4, 4, 4, 4, 0]
    ensures PitTotal(s.player1.board) == PitTotal(s.player2.board) == Pits * SeedsPerPit
  {
    var s := GameState(true, true, true, CreatePlayer("Player1"), CreatePlayer("Player2"));
    SumPitsAndStore(s.player1.board);
    SumPitsAndStore(s.player2.board);
    s
  }

  /** The player whose turn it is. */
  function CurrentPlayer(s: GameState): (p: Player)
    ensures s.isPlayer1Turn ==> p == s.player1
    ensures (p == s.player1 && OpponentPlayer(s) == s.player2) || (p == s.player2 && OpponentPlayer(s) == s.player1)
    ensures OpponentPlayer(s.(isPlayer1Turn := !s.isPlayer1Turn)) == p
  {
    if s.isPlayer1Turn then s.player1 else s.player2
  }

  /** The player waiting for their turn. */
  function OpponentPlayer(s: GameState): (p: Player)
    ensures s.isPlayer1Turn ==> p == s.player2
    ensures p == s.player1 || p == s.player2
  {
    if s.isPlayer1Turn then s.player2 else s.player1
  }

  /** The state with new boards for the current player and the opponent. */
  function WithBoards(s: GameState, moverBoard: seq<int>, opponentBoard: seq<int>): (r: GameState)
    ensures CurrentPlayer(r) == CurrentPlayer(s).(board := moverBoard)
    ensures OpponentPlayer(r) == OpponentPlayer(s).(board := opponentBoard)
    ensures r.isPlayer1Turn == s.isPlayer1Turn
    ensures r.hasGameBeenSetup == s.hasGameBeenSetup && r.gameIsPlayable == s.gameIsPlayable
  {
    if s.isPlayer1Turn then
      s.(player1 := s.player1.(board := moverBoard), player2 := s.player2.(board := opponentBoard))
    else
      s.(player1 := s.player1.(board := opponentBoard), player2 := s.player2.(board := moverBoard))
  }

  /** The result of the end-of-game check: whether play goes on, and the
      state after any sweep. */
  datatype EndCheck = EndCheck(playable: bool, state: GameState)

  /** The end-of-game check run at the start of every turn. If Player1 has
      no legal move, Player2's pits are swept into Player2's store and the
      game is over; otherwise, if Player2 has none, Player1's pits are swept
      into Player1's store and the game is over; otherwise nothing changes.
      Player1's row is always examined first. */
  function CheckForEndOfGame(s: GameState): (r: EndCheck)
    requires WellFormed(s)
    ensures WellFormed(r.state) && TotalSeeds(r.state) == TotalSeeds(s)
    ensures r.playable <==> |LegalMoves(s.player1.board)| > 0 && |LegalMoves(s.player2.board)| > 0
    ensures r.playable ==> r.state == s
    ensures |LegalMoves(s.player1.board)| == 0 ==>
      && r.state.player1 == s.player1
      && r.state.player2.name == s.player2.name
      && (forall i :: 0 <= i < Pits ==> r.state.player2.board[i] == 0)
      && r.state.player2.board[Store] == s.player2.board[Store] + PitTotal(s.player2.board)
    ensures |LegalMoves(s.player1.board)| > 0 && |LegalMoves(s.player2.board)| == 0 ==>
      && r.state.player2 == s.player2
      && r.state.player1.name == s.player1.name
      && (forall i :: 0 <= i < Pits ==> r.state.player1.board[i] == 0)
      && r.state.player1.board[Store] == s.player1.board[Store] + PitTotal(s.player1.board)
    ensures r.state.isPlayer1Turn == s.isPlayer1Turn
    ensures r.state.hasGameBeenSetup == s.hasGameBeenSetup && r.state.gameIsPlayable == s.gameIsPlayable
  {
    if |LegalMoves(s.player1.board)| == 0 then
      EndCheck(false, s.(player2 := s.player2.(board := Sweep(s.player2.board))))
    else if |LegalMoves(s.player2.board)| == 0 then
      EndCheck(false, s.(player1 := s.player1.(board := Sweep(s.player1.board))))
    else
      EndCheck(true, s)
  }

  /** When both rows are empty at once (a capture can empty both), the
      Player1-first order of the check makes no difference: either sweep
      moves no seed. */
  lemma EndCheckOrderIrrelevantWhenBothEmpty(s: GameState)
    requires WellFormed(s) && NonNegative(s.player1.board) && NonNegative(s.player2.board)
    requires |LegalMoves(s.player1.board)| == 0 && |LegalMoves(s.player2.board)| == 0
    ensures CheckForEndOfGame(s) == EndCheck(false, s)
  {
    NoMovesIffPitsEmpty(s.player2.board);
    var b := s.player2.board;
    var swept := Sweep(b);
    forall i | 0 <= i < Pits
      ensures b[i] == 0
    {
      assert i + 1 !in LegalMoves(b);
    }
    assert swept == b;
  }

  /** The pit selection as the caller read it: nothing (blank input), text
      that is not a number, or a number. */
  datatype PitInput = Blank | NotANumber | Number(value: int)

  /** What a turn reports. */
  datatype Outcome =
    | Applied                       // move made, the turn passes
    | ExtraTurn                     // move made, last seed in the store: same player again
    | WrongPlayer                   // the name given is not the current player's
    | IllegalMove(choices: seq<int>) // not a legal pit; the legal ones
    | GameEnded                     // the end-of-game check ended the game
    | NoInput                       // neither a name nor a pit was given

  datatype TurnResult = TurnResult(state: GameState, outcome: Outcome)

  /** Characters `char.IsWhiteSpace` of .NET counts as white space. */
  predicate IsWhiteSpace(c: char)
  {
    var u := c as int;
    (9 <= u <= 13) || u == 32 || u == 0x85 || u == 0xA0 || u == 0x1680
    || (0x2000 <= u <= 0x200A) || u == 0x2028 || u == 0x2029 || u == 0x202F
    || u == 0x205F || u == 0x3000
  }

  /** Empty or only white space. */
  predicate IsBlank(s: string)
  {
    forall i :: 0 <= i < |s| ==> IsWhiteSpace(s[i])
  }

  function LowerChar(c: char): char
  {
    if 'A' <= c <= 'Z' then (c as int + 32) as char else c
  }

  /** A name in lower case (ASCII letters only). */
  function Lower(s: string): (r: string)
    ensures |r| == |s|
    ensures forall i :: 0 <= i < |s| ==> r[i] == LowerChar(s[i])
    ensures forall i :: 0 <= i < |r| ==> !('A' <= r[i] <= 'Z')
  {
    seq(|s|, i requires 0 <= i < |s| => LowerChar(s[i]))
  }

  /** Lower-casing twice is lower-casing once, so names compare the same
      however they were typed. */
  lemma LowerIdempotent(s: string)
    ensures Lower(Lower(s)) == Lower(s)
  {
  }

  /** One call of the turn: the end-of-game check first; the rest of the
      turn (`Gate`) runs only when the check lets play go on, and sees the
      state with its playable flag set by the check. */
  function Turn(s: GameState, username: string, input: PitInput): (r: TurnResult)
    requires WellFormed(s)
    ensures WellFormed(r.state)
    ensures TotalSeeds(r.state) == TotalSeeds(s)
    ensures r.state.hasGameBeenSetup == s.hasGameBeenSetup
    ensures r.state.player1.name == s.player1.name && r.state.player2.name == s.player2.name
    ensures r.outcome == GameEnded
        <==> |LegalMoves(s.player1.board)| == 0 || |LegalMoves(s.player2.board)| == 0
    ensures r.state.gameIsPlayable <==> r.outcome != GameEnded
    ensures r.outcome == GameEnded ==> r.state == CheckForEndOfGame(s).state.(gameIsPlayable := false)
    ensures r.outcome != GameEnded ==> r == Gate(s.(gameIsPlayable := true), username, input)
  {
    var check := CheckForEndOfGame(s);
    var s1 := check.state.(gameIsPlayable := check.playable);
    if !check.playable then TurnResult(s1, GameEnded)
    else Gate(s1, username, input)
  }

  /** A step of play that keeps the table: both boards well-shaped, every
      seed still on them, the set-up and playable flags and the names as
      they were. */
  predicate Preserves(s: GameState, t: GameState)
    requires WellFormed(s)
  {
    && WellFormed(t) && TotalSeeds(t) == TotalSeeds(s)
    && t.hasGameBeenSetup == s.hasGameBeenSetup && t.gameIsPlayable == s.gameIsPlayable
    && t.player1.name == s.player1.name && t.player2.name == s.player2.name
  }

  /** A selection naming a pit (numbered from 1) of the current player
      that holds seeds. */
  predicate LegalPick(s: GameState, input: PitInput)
    requires WellFormed(s)
  {
    input.Number? && 1 <= input.value <= Pits && CurrentPlayer(s).board[input.value - 1] > 0
  }

  /** The part of a turn after the end-of-game check: return silently on a
      blank name with blank input; reject a name other than the current
      player's (compared case-insensitively); otherwise go on to the pit
      selection. A rejected turn changes nothing. */
  function Gate(s: GameState, username: string, input: PitInput): (r: TurnResult)
    requires WellFormed(s)
    ensures Preserves(s, r.state)
    ensures r.outcome != GameEnded
    ensures r.outcome == NoInput <==> IsBlank(username) && input.Blank?
    ensures r.outcome == WrongPlayer
        <==> !(IsBlank(username) && input.Blank?) && Lower(username) != Lower(CurrentPlayer(s).name)
    ensures r.outcome in {NoInput, WrongPlayer} ==> r.state == s
    ensures r.outcome !in {NoInput, WrongPlayer} ==> r == PickPit(s, input)
  {
    if IsBlank(username) && input.Blank? then TurnResult(s, NoInput)
    else if Lower(username) != Lower(CurrentPlayer(s).name) then TurnResult(s, WrongPlayer)
    else PickPit(s, input)
  }

  /** The pit selection of the current player: one that is not among the
      legal pits is rejected with the list of those and changes nothing;
      a legal one is played. */
  function PickPit(s: GameState, input: PitInput): (r: TurnResult)
    requires WellFormed(s)
    ensures Preserves(s, r.state)
    ensures r.outcome.IllegalMove? || r.outcome == Applied || r.outcome == ExtraTurn
    ensures r.outcome.IllegalMove? <==> !LegalPick(s, input)
    ensures r.outcome.IllegalMove? ==> r.outcome.choices == LegalMoves(CurrentPlayer(s).board) && r.state == s
    ensures !r.outcome.IllegalMove? ==> LegalPick(s, input) && r == PlayPit(s, input.value - 1)
    ensures r.outcome == Applied <==> r.state.isPlayer1Turn != s.isPlayer1Turn
  {
    var legal := LegalMoves(CurrentPlayer(s).board);
    assert (input.Number? && input.value in legal) <==> LegalPick(s, input);
    if !(input.Number? && input.value in legal) then TurnResult(s, IllegalMove(legal))
    else PlayPit(s, input.value - 1)
  }

  /** Playing a legal pit (0-based) of the current player: the boards
      become those of `Distribute`, and the turn passes unless the last
      seed fell into the mover's store. */
  function PlayPit(s: GameState, pit: int): (r: TurnResult)
    requires WellFormed(s) && 0 <= pit < Pits && CurrentPlayer(s).board[pit] > 0
    ensures Preserves(s, r.state)
    ensures var d := Distribute(CurrentPlayer(s).board, OpponentPlayer(s).board, pit);
      && (if s.isPlayer1Turn then r.state.player1 else r.state.player2).board == d.mover
      && (if s.isPlayer1Turn then r.state.player2 else r.state.player1).board == d.opponent
      && (r.outcome == ExtraTurn <==> d.extraTurn)
    ensures r.outcome == Applied || r.outcome == ExtraTurn
    ensures OpponentPlayer(s).board[Store] == (if s.isPlayer1Turn then r.state.player2 else r.state.player1).board[Store]
    ensures r.outcome == Applied <==> r.state.isPlayer1Turn != s.isPlayer1Turn
  {
    var sown := Distribute(CurrentPlayer(s).board, OpponentPlayer(s).board, pit);
    DistributeConserves(CurrentPlayer(s).board, OpponentPlayer(s).board, pit);
    var s2 := WithBoards(s, sown.mover, sown.opponent);
    if sown.extraTurn then TurnResult(s2, ExtraTurn)
    else TurnResult(s2.(isPlayer1Turn := !s2.isPlayer1Turn), Applied)
  }

  /** Who won, by comparing the stores: the larger store wins, equal
      stores tie. */
  datatype Winner = Player1Wins | Player2Wins | Tie

  function AnnounceWinner(s: GameState): (w: Winner)
    requires WellFormed(s)
    ensures w == Player1Wins <==> s.player1.board[Store] > s.player2.board[Store]
    ensures w == Player2Wins <==> s.player2.board[Store] > s.player1.board[Store]
    ensures w == Tie <==> s.player1.board[Store] == s.player2.board[Store]
  {
    if s.player1.board[Store] > s.player2.board[Store] then Player1Wins
    else if s.player2.board[Store] > s.player1.board[Store] then Player2Wins
    else Tie
  }
}
