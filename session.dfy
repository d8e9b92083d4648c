/**
 One game session: the win, loss and tie counters and the history of the
 games played, created empty, updated by each game and cleared by a reset,
 and the win-rate the statistics panel shows once a game has been played.
 */
module Session {
  import opened Rules
  import opened History

  datatype Option<+T> = None | Some(value: T)

  /** A non-negative rational number num/den, used for the win-rate percentage. */
  datatype Ratio = Ratio(num: nat, den: nat)

  /**
   The state invariant: every record holds the outcome of its own moves, and
   each counter is the number of records with that result.
   */
  ghost predicate Consistent(wins: nat, losses: nat, ties: nat, history: seq<GameRecord>) {
    && WellFormed(history)
    && wins == CountResult(history, Win)
    && losses == CountResult(history, Loss)
    && ties == CountResult(history, Tie)
  }

  /** The three counters of a consistent state add up to the number of games in the history. */
  lemma ConsistentTotal(wins: nat, losses: nat, ties: nat, history: seq<GameRecord>)
    requires Consistent(wins, losses, ties, history)
    ensures wins + losses + ties == |history|
    ensures wins <= |history| && losses <= |history| && ties <= |history|
  {
    CountsSum(history);
  }

  /** Counting one more game of the given result keeps a state consistent. */
  lemma ConsistentAfterGame(wins: nat, losses: nat, ties: nat, history: seq<GameRecord>, r: GameRecord)
    requires Consistent(wins, losses, ties, history)
    requires r.result == DetermineWinner(r.player, r.computer)
    ensures Consistent(wins + (if r.result == Win then 1 else 0),
                       losses + (if r.result == Loss then 1 else 0),
                       ties + (if r.result == Tie then 1 else 0),
                       history + [r])
  {
    CountAppend(history, r, Win);
    CountAppend(history, r, Loss);
    CountAppend(history, r, Tie);
    var h := history + [r];
    forall i | 0 <= i < |h|
      ensures h[i].result == DetermineWinner(h[i].player, h[i].computer)
    {
      if i < |history| {
        assert h[i] == history[i];
      }
    }
  }

  /**
   The win rate as the percentage 100 * wins / total, or None while no game
   has been played (the statistics panel then shows no win rate).
   */
  function WinRate(wins: nat, losses: nat, ties: nat): (r: Option<Ratio>)
    ensures r.None? <==> wins + losses + ties == 0
    ensures r.Some? ==> r.value.den == wins + losses + ties
    ensures r.Some? ==> r.value.num == 100 * wins
    ensures r.Some? ==> r.value.num <= 100 * r.value.den
  {
    var total := wins + losses + ties;
    if total > 0 then Some(Ratio(100 * wins, total)) else None
  }

  /** In a consistent state the win rate is shown exactly when the history is non-empty. */
  lemma WinRateShownAfterAGame(wins: nat, losses: nat, ties: nat, history: seq<GameRecord>)
    requires Consistent(wins, losses, ties, history)
    ensures WinRate(wins, losses, ties).Some? <==> |history| > 0
    ensures WinRate(wins, losses, ties).Some? ==> WinRate(wins, losses, ties).value.den == |history|
  {
    ConsistentTotal(wins, losses, ties, history);
  }

  /** The statistics and history that the session keeps between page runs. */
  class GameSession {
    var wins: nat
    var losses: nat
    var ties: nat
    var history: seq<GameRecord>

    ghost predicate Valid()
      reads this
    {
      Consistent(wins, losses, ties, history)
    }

    /** A new session: no games counted and an empty history. */
    constructor ()
      ensures Valid()
      ensures wins == 0 && losses == 0 && ties == 0 && history == []
    {
      wins, losses, ties := 0, 0, 0;
      history := [];
    }

    /** The number of games played, as the statistics panel computes it. */
    function TotalGames(): (n: nat)
      reads this
      requires Valid()
      ensures n == |history|
    {
      ConsistentTotal(wins, losses, ties, history);
      wins + losses + ties
    }

    /**
     One game: the player's move against the computer's move, played at the
     given time. Exactly the counter of the resolved outcome goes up by one,
     and the game's record is appended to the history.
     */
    method Play(player: Move, computer: Move, timestamp: string)
      modifies this
      ensures old(Valid()) ==> Valid()
      ensures history == old(history) + [Record(timestamp, player, computer)]
      ensures wins == old(wins) + (if DetermineWinner(player, computer) == Win then 1 else 0)
      ensures losses == old(losses) + (if DetermineWinner(player, computer) == Loss then 1 else 0)
      ensures ties == old(ties) + (if DetermineWinner(player, computer) == Tie then 1 else 0)
    {
      ghost var wasValid := Valid();
      var result := DetermineWinner(player, computer);
      if result == Win {
        wins := wins + 1;
      } else if result == Loss {
        losses := losses + 1;
      } else {
        ties := ties + 1;
      }
      var gameRecord := GameRecord(timestamp, player, computer, result);
      if wasValid {
        ConsistentAfterGame(old(wins), old(losses), old(ties), old(history), gameRecord);
      }
      history := history + [gameRecord];
    }

    /** Clears the session, whatever it held: all counters zero and an empty history. */
    method Reset()
      modifies this
      ensures Valid()
      ensures wins == 0 && losses == 0 && ties == 0 && history == []
    {
      wins, losses, ties := 0, 0, 0;
      history := [];
    }
  }

  /**
   Usage example, not part of the game: a fresh session, three rock games
   against computer moves scissors, scissors, paper, then a reset.
   */
  method ThreeRocksExample()
  {
    var win, loss := DetermineWinner(Rock, Scissors), DetermineWinner(Rock, Paper);
    assert win == Win && loss == Loss;
    var s := new GameSession();
    s.Play(Rock, Scissors, "10:00:00");
    assert s.wins == 1 && s.losses == 0 && s.ties == 0;
    s.Play(Rock, Scissors, "10:00:05");
    assert s.wins == 2 && s.losses == 0 && s.ties == 0;
    s.Play(Rock, Paper, "10:00:09");
    assert s.wins == 2 && s.losses == 1 && s.ties == 0 && |s.history| == 3;
    assert WinRate(s.wins, s.losses, s.ties) == Some(Ratio(200, 3));
    s.Reset();
    assert WinRate(s.wins, s.losses, s.ties) == None;
  }

  /**
   Usage example, not part of the game: after a game is played, the history
   view shows its record first.
   */
  method LatestGameFirstExample(s: GameSession)
    modifies s
  {
    s.Play(Rock, Paper, "10:00:09");
    var rows := HistoryView(s.history);
    RecentFirstAfterAppend(old(s.history), Record("10:00:09", Rock, Paper));
    assert rows[0].computer == Paper && rows[0].result == DetermineWinner(Rock, Paper);
  }
}
