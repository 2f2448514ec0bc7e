/**
 The game as it runs: shared variables updated by event functions.  Each method
 performs exactly the step of the same name in module Games.
 */
module GameMachines {
  import opened Machine
  import G = Games

  // An event that ends where the step says keeps the invariant.
  lemma Kept(c: G.Config, s: G.State, e: G.Step, after: G.State)
    requires G.Good(c, s) && G.Enabled(s, e) ==> after == G.Next(c, s, e)
    ensures G.Good(c, s) && G.Enabled(s, e) ==> G.Good(c, after)
  {
    hide G.Next, G.Enabled;
    if G.Good(c, s) && G.Enabled(s, e) { G.NextKeeps(c, s, e); }
  }

  // The players, from n down to 1.
  function Countdown(n: nat): seq<nat> {
    if n == 0 then [] else [n] + Countdown(n - 1)
  }

  class GameMachine {
    const config: G.Config
    var inGame: bool
    var inBonus: bool
    var inTilt: bool
    var validPlayfield: bool
    var ending: bool
    var numPlayers: nat
    var playerUp: nat
    var ballUp: nat
    var extraBalls: nat
    var earnedBip: nat
    var earned: seq<nat>
    ghost var turns: seq<G.Turn>
    ghost var commits: nat
    // The players for whom stop_game announced the end_player event.
    ghost var endedPlayers: seq<nat>

    ghost function Abs(): G.State
      reads this
    {
      G.State(inGame, inBonus, inTilt, validPlayfield, ending, numPlayers, playerUp, ballUp,
              extraBalls, earnedBip, earned, turns, commits)
    }

    // Players and balls in range, balls played in order, extra balls accounted for.
    ghost predicate Valid()
      reads this
    {
      G.Good(config, Abs())
    }

    constructor (config: G.Config)
      ensures Valid() <==> G.GoodConfig(config)
      ensures Abs() == G.PowerUp() && this.config == config
    {
      this.config := config;
      inGame, inBonus, inTilt, validPlayfield, ending := false, false, false, false, false;
      numPlayers, playerUp, ballUp, extraBalls, earnedBip := 1, 0, 0, 0, 0;
      earned, turns, commits, endedPlayers := [0, 0, 0, 0, 0], [], 0, [];
    }

    method StartBall(ghost extra: bool)
      requires playerUp < |earned|
      modifies this`inTilt, this`validPlayfield, this`earned, this`turns
      ensures Abs() == G.StartBall(old(Abs()), extra)
    {
      inTilt := false;
      validPlayfield := false;
      turns := turns + [G.Turn(playerUp, ballUp, extra)];
      if ballUp == 1 && earnedBip == 0 {
        earned := earned[playerUp := 0];
      }
    }

    method AddPlayer()
      modifies this`numPlayers
      ensures Abs() == old(Abs()).(numPlayers := old(numPlayers) + 1)
    {
      numPlayers := numPlayers + 1;
    }

    // start_game up to its first ball.
    method Reset()
      modifies this`inGame, this`inBonus, this`inTilt, this`ending, this`numPlayers, this`playerUp, this`ballUp,
               this`extraBalls, this`earnedBip, this`earned, this`turns, this`commits
      ensures inGame && !inBonus && !inTilt && !ending
      ensures numPlayers == 1 && playerUp == 1 && ballUp == 1 && extraBalls == 0 && earnedBip == 0
      ensures earned == [0, 0, 0, 0, 0] && turns == [] && commits == 0
    {
      hide *;
      inGame, inBonus, inTilt, ending := true, false, false, false;
      numPlayers := 0;
      numPlayers := numPlayers + 1;
      playerUp := 1;
      ballUp := 1;
      extraBalls, earnedBip := 0, 0;
      earned, turns, commits := [0, 0, 0, 0, 0], [], 0;
    }

    method StartGame()
      modifies this
      ensures Abs() == G.StartGame(old(Abs())) && endedPlayers == old(endedPlayers)
    {
      if !inGame {
        Reset();
        StartBall(false);
      }
    }

    method EndPlayers()
      requires playerUp >= 1
      modifies this`playerUp, this`endedPlayers
      ensures playerUp == 0 && endedPlayers == old(endedPlayers) + Countdown(old(playerUp))
    {
      endedPlayers := endedPlayers + [playerUp];
      playerUp := playerUp - 1;
      while playerUp > 0
        invariant endedPlayers + Countdown(playerUp) == old(endedPlayers) + Countdown(old(playerUp))
      {
        endedPlayers := endedPlayers + [playerUp];
        playerUp := playerUp - 1;
      }
    }

    // In a game that is not over yet some player is up, so the loop ends.
    method StopGame()
      requires inGame && ballUp <= config.ballsPerGame ==> playerUp >= 1
      modifies this
      ensures Abs() == G.StopGame(old(Abs()))
      ensures endedPlayers == old(endedPlayers) +
        if old(inGame && ballUp <= config.ballsPerGame) then Countdown(old(playerUp)) else []
      ensures old(Valid() && G.Enabled(Abs(), G.EndGameTask)) ==> Valid()
    {
      hide G.Good, G.Enabled, Countdown;
      Kept(config, Abs(), G.EndGameTask, G.StopGame(Abs()));
      if inGame && ballUp <= config.ballsPerGame {
        EndPlayers();
      }
      inGame, inBonus, inTilt := false, false, false;
      playerUp, ballUp := 0, 0;
      validPlayfield, ending := false, false;
    }

    method StartButton(restart: bool)
      requires inGame && ballUp <= config.ballsPerGame ==> playerUp >= 1
      modifies this
      ensures Abs() == G.StartButton(config, old(Abs()), restart)
      ensures old(Valid() && G.Enabled(Abs(), G.PressStart(restart))) ==> Valid()
    {
      Kept(config, Abs(), G.PressStart(restart), G.StartButton(config, Abs(), restart));
      if inTilt { return; }
      if !inGame {
        if restart { StartGame(); }
      } else if numPlayers < config.maxPlayers {
        if ballUp == 1 {
          AddPlayer();
        } else if restart {
          StopGame();
          StartGame();
        }
      }
    }

    method IncrementExtraBalls()
      requires playerUp < |earned|
      modifies this`extraBalls, this`earnedBip, this`earned
      ensures Abs() == G.Award(config, old(Abs()))
      ensures old(Valid() && G.Enabled(Abs(), G.AwardExtraBall)) ==> Valid()
    {
      Kept(config, Abs(), G.AwardExtraBall, G.Award(config, Abs()));
      if earned[playerUp] < config.maxEbs && earnedBip < config.maxEbsPerBip {
        if config.maxEbs != 0 {
          extraBalls := extraBalls + 1;
          earned := earned[playerUp := earned[playerUp] + 1];
          earnedBip := earnedBip + 1;
        }
      }
    }

    // Whether the same player shoots again.
    method DecrementExtraBalls() returns (again: bool)
      modifies this`extraBalls, this`earnedBip
      ensures again == (old(extraBalls) > 0)
      ensures Abs() == if again then old(Abs()).(extraBalls := old(extraBalls) - 1) else old(Abs()).(earnedBip := 0)
    {
      if extraBalls > 0 {
        extraBalls := extraBalls - 1;
        return true;
      }
      earnedBip := 0;
      return false;
    }

    method SetValidPlayfield()
      modifies this`validPlayfield
      ensures Abs() == if old(inGame) then old(Abs()).(validPlayfield := true) else old(Abs())
      ensures old(Valid() && G.Enabled(Abs(), G.ValidatePlayfield)) ==> Valid()
    {
      Kept(config, Abs(), G.ValidatePlayfield, if inGame then Abs().(validPlayfield := true) else Abs());
      if inGame && !validPlayfield { validPlayfield := true; }
    }

    method EndBall()
      modifies this`inBonus
      ensures Abs() == G.EndBall(old(Abs()))
      ensures old(Valid() && G.Enabled(Abs(), G.BallDrained)) ==> Valid()
    {
      Kept(config, Abs(), G.BallDrained, G.EndBall(Abs()));
      if !inGame { return; }
      if !validPlayfield && !inTilt { return; }
      inBonus := true;
    }

    method Advance()
      requires playerUp < |earned| && numPlayers < |earned| && 1 < |earned|
      modifies this`playerUp, this`ballUp, this`inTilt, this`validPlayfield, this`earned, this`turns, this`ending
      ensures Abs() == G.Advance(config, old(Abs()))
    {
      hide G.StartBall;
      if numPlayers > 1 {
        playerUp := playerUp + 1;
        if playerUp <= numPlayers {
          StartBall(false);
          return;
        }
        playerUp := 1;
      }
      ballUp := ballUp + 1;
      if ballUp <= config.ballsPerGame {
        StartBall(false);
        return;
      }
      ending := true;
    }

    method FinishBall()
      requires playerUp < |earned| && numPlayers < |earned| && 1 < |earned|
      modifies this
      ensures Abs() == G.FinishBall(config, old(Abs()))
      ensures old(Valid() && G.Enabled(Abs(), G.BonusOver)) ==> Valid()
    {
      hide G.Good, G.Enabled, G.StartBall, G.Advance;
      Kept(config, Abs(), G.BonusOver, G.FinishBall(config, Abs()));
      commits := commits + 1;
      inBonus := false;
      var again := DecrementExtraBalls();
      if again { StartBall(true); } else { Advance(); }
    }
  }
}
