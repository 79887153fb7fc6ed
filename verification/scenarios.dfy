/** Concrete games worked through the model: an extra turn, a capture, the
    rejections, and a row emptied by a move that only ends the game at the
    next turn. */
module Scenarios {
  import opened Board
  import opened Sowing
  import opened Game

  function Table(p1: seq<int>, p2: seq<int>, player1ToMove: bool): GameState
  {
    GameState(true, true, player1ToMove, Player("Player1", p1), Player("Player2", p2))
  }

  /** Two seeds from pit 5 reach pit 6 and then the store: Player1 moves
      again. */
  lemma ExtraTurnFromPitFive()
    ensures var r := Turn(Table([4, 4, 4, 4, 2, 4, 0], [4, 4, 4, 4, 4, 4, 0], true), "Player1", Number(5));
      && r.outcome == ExtraTurn
      && r.state.isPlayer1Turn
      && r.state.player1.board == [4, 4, 4, 4, 0, 5, 1]
      && r.state.player2.board == [4, 4, 4, 4, 4, 4, 0]
  {
    var s := Table([4, 4, 4, 4, 2, 4, 0], [4, 4, 4, 4, 4, 4, 0], true);
    assert CheckForEndOfGame(s).playable by {
      assert 1 in LegalMoves(s.player1.board) && 1 in LegalMoves(s.player2.board);
    }
    assert Gate(s, "Player1", Number(5)) == PlayPit(s, 4) by {
      assert 5 in LegalMoves(s.player1.board);
    }
    ExtraTurnSowing();
  }

  /** The sowing half of the extra turn above. */
  lemma ExtraTurnSowing()
    ensures Distribute([4, 4, 4, 4, 2, 4, 0], [4, 4, 4, 4, 4, 4, 0], 4)
        == Sown([4, 4, 4, 4, 0, 5, 1], [4, 4, 4, 4, 4, 4, 0], true)
  {
    var ring := Ring([4, 4, 4, 4, 2, 4, 0][4 := 0], [4, 4, 4, 4, 4, 4, 0]);
    assert ring == [4, 4, 4, 4, 0, 4, 0, 4, 4, 4, 4, 4, 4];
    assert LandingSlot(4, 1) == 5 && LandingSlot(4, 2) == 6;
    assert Spread(ring, 4, 1) == ring[5 := 5];
    assert Spread(ring, 4, 2) == ring[5 := 5][6 := 1];
  }

  /** One seed from pit 1 reaches the empty pit 2, facing Player2's pit 5
      with three seeds: the store gains 1 + 3 and the turn passes. */
  lemma CaptureFromPitOne()
    ensures var r := Turn(Table([1, 0, 4, 4, 4, 4, 0], [4, 4, 4, 4, 3, 4, 0], true), "player1", Number(1));
      && r.outcome == Applied
      && !r.state.isPlayer1Turn
      && r.state.player1.board == [0, 0, 4, 4, 4, 4, 4]
      && r.state.player2.board == [4, 4, 4, 4, 0, 4, 0]
  {
    var s := Table([1, 0, 4, 4, 4, 4, 0], [4, 4, 4, 4, 3, 4, 0], true);
    assert CheckForEndOfGame(s).playable by {
      assert 1 in LegalMoves(s.player1.board) && 1 in LegalMoves(s.player2.board);
    }
    assert Gate(s, "player1", Number(1)) == PlayPit(s, 0) by {
      assert 1 in LegalMoves(s.player1.board);
      SameNameIgnoringCase();
    }
    assert PlayPit(s, 0) == TurnResult(Table([0, 0, 4, 4, 4, 4, 4], [4, 4, 4, 4, 0, 4, 0], false), Applied) by {
      CaptureSowing();
    }
  }

  /** "player1" names Player1: names compare in lower case. */
  lemma SameNameIgnoringCase()
    ensures Lower("player1") == Lower("Player1")
  {
    assert Lower("Player1")[0] == 'p';
  }

  /** The sowing half of the capture above. */
  lemma CaptureSowing()
    ensures Distribute([1, 0, 4, 4, 4, 4, 0], [4, 4, 4, 4, 3, 4, 0], 0)
        == Sown([0, 0, 4, 4, 4, 4, 4], [4, 4, 4, 4, 0, 4, 0], false)
  {
    var ring := Ring([1, 0, 4, 4, 4, 4, 0][0 := 0], [4, 4, 4, 4, 3, 4, 0]);
    assert ring == [0, 0, 4, 4, 4, 4, 0, 4, 4, 4, 4, 3, 4];
    assert LandingSlot(0, 1) == 1;
    assert Spread(ring, 0, 0) == ring;
    assert Captures(ring, 1);
    assert Capture(ring, 1) == [0, 0, 4, 4, 4, 4, 4, 4, 4, 4, 4, 0, 4];
  }

  /** An empty pit is not a legal choice; the legal ones are listed and
      nothing changes. */
  lemma EmptyPitRejected()
    ensures var s := Table([4, 4, 0, 4, 4, 4, 1], [4, 4, 4, 4, 4, 4, 3], true);
      var r := Turn(s, "Player1", Number(3));
      r.outcome == IllegalMove([1, 2, 4, 5, 6]) && r.state == s
  {
    var s := Table([4, 4, 0, 4, 4, 4, 1], [4, 4, 4, 4, 4, 4, 3], true);
    assert 1 in LegalMoves(s.player1.board) && 1 in LegalMoves(s.player2.board);
    assert !LegalPick(s, Number(3));
  }

  /** Player2 may not play on Player1's turn, whatever the letter case. */
  lemma OtherPlayerRejected()
    ensures var s := Table([4, 4, 4, 4, 4, 4, 0], [4, 4, 4, 4, 4, 4, 0], true);
      var r := Turn(s, "PLAYER2", Number(1));
      r.outcome == WrongPlayer && r.state == s
  {
    var s := Table([4, 4, 4, 4, 4, 4, 0], [4, 4, 4, 4, 4, 4, 0], true);
    assert 1 in LegalMoves(s.player1.board) && 1 in LegalMoves(s.player2.board);
    assert Lower("PLAYER2")[6] == '2' && Lower("Player1")[6] == '1';
  }

  /** Player1 empties their row with an extra-turn move; the game goes on
      until the next turn's check, which sweeps Player2's pits into
      Player2's store and ends it. */
  lemma EmptyRowEndsGameAtNextTurn()
    ensures var s := Table([0, 0, 0, 0, 0, 1, 10], [5, 5, 5, 5, 5, 5, 7], true);
      var first := Turn(s, "Player1", Number(6));
      var second := Turn(first.state, "Player1", Number(1));
      && first.outcome == ExtraTurn && first.state.gameIsPlayable
      && first.state.player1.board == [0, 0, 0, 0, 0, 0, 11]
      && second.outcome == GameEnded && !second.state.gameIsPlayable
      && second.state.player2.board == [0, 0, 0, 0, 0, 0, 37]
      && AnnounceWinner(second.state) == Player2Wins
  {
    FirstTurnEmptiesRow();
    NextTurnEndsGame();
  }

  /** The first turn of the game above: an extra turn that empties
      Player1's row. */
  lemma FirstTurnEmptiesRow()
    ensures Turn(Table([0, 0, 0, 0, 0, 1, 10], [5, 5, 5, 5, 5, 5, 7], true), "Player1", Number(6))
        == TurnResult(Table([0, 0, 0, 0, 0, 0, 11], [5, 5, 5, 5, 5, 5, 7], true), ExtraTurn)
  {
    var s := Table([0, 0, 0, 0, 0, 1, 10], [5, 5, 5, 5, 5, 5, 7], true);
    assert CheckForEndOfGame(s).playable by {
      assert 6 in LegalMoves(s.player1.board) && 1 in LegalMoves(s.player2.board);
    }
    assert Gate(s, "Player1", Number(6)) == PlayPit(s, 5) by {
      assert 6 in LegalMoves(s.player1.board);
    }
    LastSeedToStore();
  }

  /** The second turn of the game above: the check finds Player1's row
      empty and sweeps Player2's 30 seeds into Player2's store. */
  lemma NextTurnEndsGame()
    ensures Turn(Table([0, 0, 0, 0, 0, 0, 11], [5, 5, 5, 5, 5, 5, 7], true), "Player1", Number(1))
        == TurnResult(Table([0, 0, 0, 0, 0, 0, 11], [0, 0, 0, 0, 0, 0, 37], true).(gameIsPlayable := false), GameEnded)
  {
    var b := [5, 5, 5, 5, 5, 5, 7];
    assert Sweep(b) == [0, 0, 0, 0, 0, 0, 37] by {
      assert b[..Pits] == seq(Pits, i => 5);
      ConstantSum(Pits, 5);
    }
  }

  /** The sowing half of the first turn above. */
  lemma LastSeedToStore()
    ensures Distribute([0, 0, 0, 0, 0, 1, 10], [5, 5, 5, 5, 5, 5, 7], 5)
        == Sown([0, 0, 0, 0, 0, 0, 11], [5, 5, 5, 5, 5, 5, 7], true)
  {
    var ring := Ring([0, 0, 0, 0, 0, 1, 10][5 := 0], [5, 5, 5, 5, 5, 5, 7]);
    assert ring == [0, 0, 0, 0, 0, 0, 10, 5, 5, 5, 5, 5, 5];
    assert LandingSlot(5, 1) == 6;
    assert Spread(ring, 5, 1) == ring[6 := 11];
  }
}
