/**
 The life of a game: starting, adding players, ending balls, extra balls, and
 the end of the game, with buy-in and timed games off.  Per-player counters are
 indexed by player; module Players shows that saving and restoring gives each
 player a private copy.
 */
module Games {
  import opened Machine

  // The adjustments that matter here.
  datatype Config = Config(ballsPerGame: U8, maxPlayers: U8, maxEbs: U8, maxEbsPerBip: U8)

  predicate GoodConfig(c: Config) {
    c.ballsPerGame >= 1 && 1 <= c.maxPlayers <= 4 && c.ballsPerGame < 0xff
  }

  // A ball served to a player; `extra` when it was an extra ball.
  datatype Turn = Turn(player: nat, ball: nat, extra: bool)

  /**
   earned[p] is player p's extra_balls_earned.  ending is whether the end-game
   task has been created.  turns and commits record what happened in this game:
   every ball started, and every end of ball that was not refused.
   */
  datatype State = State(
    inGame: bool, inBonus: bool, inTilt: bool, validPlayfield: bool, ending: bool,
    numPlayers: nat, playerUp: nat, ballUp: nat,
    extraBalls: nat, earnedBip: nat, earned: seq<nat>,
    turns: seq<Turn>, commits: nat)

  function PowerUp(): State {
    State(false, false, false, false, false, 1, 0, 0, 0, 0, [0, 0, 0, 0, 0], [], 0)
  }

  function StartBall(s: State, extra: bool): State
    requires s.playerUp < |s.earned|
  {
    var s1 := s.(inTilt := false, validPlayfield := false, turns := s.turns + [Turn(s.playerUp, s.ballUp, extra)]);
    // the start_player event
    if s.ballUp == 1 && s.earnedBip == 0 then s1.(earned := s1.earned[s.playerUp := 0]) else s1
  }

  // The state of a new game, before its first ball.
  function NewGame(s: State): State {
    State(true, false, false, s.validPlayfield, false, 1, 1, 1, 0, 0, [0, 0, 0, 0, 0], [], 0)
  }

  function StartGame(s: State): State {
    if s.inGame then s else StartBall(NewGame(s), false)
  }

  function StopGame(s: State): State {
    s.(inGame := false, inBonus := false, inTilt := false, validPlayfield := false, ending := false,
       playerUp := 0, ballUp := 0)
  }

  // The start button with enough credits; `restart` is whether the checks and
  // the adjustment allow a restart.
  function StartButton(c: Config, s: State, restart: bool): State {
    if s.inTilt then s
    else if !s.inGame then (if restart then StartGame(s) else s)
    else if s.numPlayers < c.maxPlayers then
      if s.ballUp == 1 then s.(numPlayers := s.numPlayers + 1)
      else if restart then StartGame(StopGame(s)) else s
    else s
  }

  function CanAward(c: Config, s: State): bool
    requires s.playerUp < |s.earned|
  {
    s.earned[s.playerUp] < c.maxEbs && s.earnedBip < c.maxEbsPerBip
  }

  // increment_extra_balls
  function Award(c: Config, s: State): State
    requires s.playerUp < |s.earned|
  {
    if CanAward(c, s) && c.maxEbs != 0 then
      s.(extraBalls := s.extraBalls + 1, earnedBip := s.earnedBip + 1,
         earned := s.earned[s.playerUp := s.earned[s.playerUp] + 1])
    else s
  }

  // end_ball up to the bonus.
  function EndBall(s: State): State {
    if !s.inGame then s
    else if !s.validPlayfield && !s.inTilt then s
    else s.(inBonus := true)
  }

  // The next player, or the next ball, or the end of the game.
  function Advance(c: Config, s: State): State
    requires s.playerUp < |s.earned| && s.numPlayers < |s.earned| && 1 < |s.earned|
  {
    if s.numPlayers > 1 && s.playerUp + 1 <= s.numPlayers then
      StartBall(s.(playerUp := s.playerUp + 1), false)
    else
      var s1 := s.(playerUp := if s.numPlayers > 1 then 1 else s.playerUp, ballUp := s.ballUp + 1);
      if s1.ballUp <= c.ballsPerGame then StartBall(s1, false) else s1.(ending := true)
  }

  // end_ball from the end of the bonus on.
  function FinishBall(c: Config, s: State): State
    requires s.playerUp < |s.earned| && s.numPlayers < |s.earned| && 1 < |s.earned|
  {
    var s1 := s.(inBonus := false, commits := s.commits + 1);
    if s.extraBalls > 0 then StartBall(s1.(extraBalls := s.extraBalls - 1), true)
    else Advance(c, s1.(earnedBip := 0))
  }

  // ---------- the order of play ----------

  // The turns of n players in order, up to player p on ball b.
  function Order(n: nat, p: nat, b: nat): seq<(nat, nat)>
    decreases b, p
  {
    if b == 0 then []
    else if p == 0 then Order(n, n, b - 1)
    else Order(n, p - 1, b) + [(p, b)]
  }

  lemma {:induction false} FirstRound(n: nat, m: nat, p: nat)
    ensures Order(n, p, 1) == Order(m, p, 1)
  {
    if p > 0 { FirstRound(n, m, p - 1); }
  }

  // The turns that were not extra balls.
  function Regular(turns: seq<Turn>): seq<(nat, nat)> {
    if turns == [] then []
    else
      var rest, t := Regular(turns[..|turns| - 1]), turns[|turns| - 1];
      if t.extra then rest else rest + [(t.player, t.ball)]
  }

  // How many extra balls player p played.
  function Extras(turns: seq<Turn>, p: nat): nat {
    if turns == [] then 0
    else
      var t := turns[|turns| - 1];
      Extras(turns[..|turns| - 1], p) + if t.extra && t.player == p then 1 else 0
  }

  // ---------- the invariant ----------

  // Only the n players of the game had turns.
  ghost predicate PlayedBy(turns: seq<Turn>, n: nat) {
    forall i | 0 <= i < |turns| :: 1 <= turns[i].player <= n
  }

  ghost predicate Playing(c: Config, s: State) {
    && 1 <= s.playerUp <= s.numPlayers <= c.maxPlayers
    && 1 <= s.ballUp <= c.ballsPerGame
    && |s.turns| > 0
    && s.turns[|s.turns| - 1].player == s.playerUp && s.turns[|s.turns| - 1].ball == s.ballUp
    && s.commits + 1 == |s.turns|
    && Regular(s.turns) == Order(s.numPlayers, s.playerUp, s.ballUp)
    && PlayedBy(s.turns, s.numPlayers)
    // extra balls: earned by players who have been up, used or still to play
    && s.extraBalls <= s.earnedBip <= c.maxEbsPerBip
    && (s.ballUp == 1 ==> forall p | s.playerUp < p < |s.earned| :: s.earned[p] == 0)
    && (forall p | 0 <= p < |s.earned| ::
          s.earned[p] <= c.maxEbs && s.earned[p] == Extras(s.turns, p) + if p == s.playerUp then s.extraBalls else 0)
  }

  // Every player has played every ball.
  ghost predicate Over(c: Config, s: State) {
    && s.playerUp == 1 && 1 <= s.numPlayers <= c.maxPlayers
    && s.ballUp == c.ballsPerGame + 1
    && !s.inBonus
    && s.commits == |s.turns|
    && Regular(s.turns) == Order(s.numPlayers, s.numPlayers, c.ballsPerGame)
    && PlayedBy(s.turns, s.numPlayers)
    && forall p | 0 <= p < |s.earned| :: s.earned[p] == Extras(s.turns, p) <= c.maxEbs
  }

  ghost predicate Inv(c: Config, s: State) {
    && |s.earned| == 5
    && (if s.inGame then (if s.ending then Over(c, s) else Playing(c, s))
        else s.playerUp == 0 && s.ballUp == 0 && !s.inBonus && !s.ending && !s.validPlayfield)
  }

  lemma StartGameKeeps(c: Config, s: State)
    requires GoodConfig(c) && |s.earned| == 5 && !s.inGame
    ensures Inv(c, StartGame(s))
  {
    var s' := StartGame(s);
    assert s'.turns == [Turn(1, 1, false)];
    assert s'.turns[..0] == [];
    assert Order(1, 0, 1) == [] && Order(1, 1, 1) == [(1, 1)];
  }

  lemma AddPlayerKeeps(c: Config, s: State)
    requires Inv(c, s) && s.inGame && s.ballUp == 1 && !s.ending && s.numPlayers < c.maxPlayers
    ensures Inv(c, s.(numPlayers := s.numPlayers + 1))
  {
    FirstRound(s.numPlayers, s.numPlayers + 1, s.playerUp);
  }

  lemma OneMoreTurn(turns: seq<Turn>, t: Turn)
    ensures Regular(turns + [t]) == if t.extra then Regular(turns) else Regular(turns) + [(t.player, t.ball)]
    ensures forall p :: Extras(turns + [t], p) == Extras(turns, p) + if t.extra && t.player == p then 1 else 0
  {
    assert (turns + [t])[..|turns|] == turns;
  }

  // The same player plays an extra ball.
  lemma ShootAgainKeeps(c: Config, s: State)
    requires GoodConfig(c) && Inv(c, s) && s.inGame && !s.ending && s.extraBalls > 0
    ensures Inv(c, FinishBall(c, s))
  {
    OneMoreTurn(s.turns, Turn(s.playerUp, s.ballUp, true));
  }

  // A player change or a new ball number: nothing is left to shoot again.
  lemma AdvanceKeeps(c: Config, s: State, player: nat, ball: nat)
    requires GoodConfig(c) && Inv(c, s) && s.inGame && !s.ending && s.extraBalls == 0
    requires 1 <= player <= s.numPlayers && 1 <= ball <= c.ballsPerGame
    requires if ball == s.ballUp then player == s.playerUp + 1 else player == 1 && ball == s.ballUp + 1 && s.playerUp == s.numPlayers
    ensures Inv(c, StartBall(s.(inBonus := false, commits := s.commits + 1, earnedBip := 0,
                                playerUp := player, ballUp := ball), false))
  {
    hide Order, Regular, Extras;
    OneMoreTurn(s.turns, Turn(player, ball, false));
    OrderStep(s.numPlayers, player, ball);
  }

  lemma OrderStep(n: nat, p: nat, b: nat)
    requires p >= 1 && b >= 1
    ensures Order(n, p, b) == Order(n, p - 1, b) + [(p, b)] && Order(n, 0, b) == Order(n, n, b - 1)
  {
  }

  lemma FinishBallKeeps(c: Config, s: State)
    requires GoodConfig(c) && Inv(c, s) && s.inGame && !s.ending
    ensures Inv(c, FinishBall(c, s))
  {
    hide FinishBall, Regular, Extras, Order;
    if s.extraBalls > 0 {
      ShootAgainKeeps(c, s);
    } else if s.playerUp < s.numPlayers || s.ballUp < c.ballsPerGame {
      NextTurnKeeps(c, s);
    } else {
      LastBallKeeps(c, s);
    }
  }

  lemma NextTurnKeeps(c: Config, s: State)
    requires GoodConfig(c) && Inv(c, s) && s.inGame && !s.ending && s.extraBalls == 0
    requires s.playerUp <= s.numPlayers < |s.earned| && s.ballUp <= c.ballsPerGame && 1 < |s.earned|
    requires s.playerUp < s.numPlayers || s.ballUp < c.ballsPerGame
    ensures Inv(c, FinishBall(c, s))
  {
    hide Inv, StartBall;
    NumberedFromOne(c, s);
    if s.playerUp < s.numPlayers {
      AdvanceKeeps(c, s, s.playerUp + 1, s.ballUp);
    } else {
      AdvanceKeeps(c, s, 1, s.ballUp + 1);
    }
  }

  lemma NumberedFromOne(c: Config, s: State)
    requires Inv(c, s) && s.inGame && !s.ending
    ensures 1 <= s.playerUp && 1 <= s.ballUp
  {
  }

  // After the last ball of the last player the game is over.
  lemma LastBallKeeps(c: Config, s: State)
    requires GoodConfig(c) && Inv(c, s) && s.inGame && !s.ending && s.extraBalls == 0
    requires s.playerUp == s.numPlayers && s.ballUp == c.ballsPerGame
    ensures Inv(c, FinishBall(c, s))
  {
    hide Regular, Extras, Order;
  }

  lemma AwardKeeps(c: Config, s: State)
    requires GoodConfig(c) && Inv(c, s) && s.inGame && !s.ending
    ensures Inv(c, Award(c, s))
  {
  }

  // The branch that would award points instead, when extra balls are disabled
  // by adjustment, is never reached: the test before it has already failed.
  lemma PointsNeverAwarded(c: Config, s: State)
    requires s.playerUp < |s.earned| && c.maxEbs == 0
    ensures !CanAward(c, s) && Award(c, s) == s
  {
  }

  // ---------- whole runs ----------

  datatype Step =
    | PressStart(restart: bool)
    | ValidatePlayfield
    | Tilt
    | AwardExtraBall
    | BallDrained
    | BonusOver
    | EndGameTask

  // Drains are reported only outside the bonus and before the game is ending;
  // awards and tilts happen during play.
  predicate Enabled(s: State, e: Step) {
    match e
    case PressStart(_) => true
    case ValidatePlayfield => true
    case Tilt => s.inGame && !s.ending
    case AwardExtraBall => s.inGame && !s.ending
    case BallDrained => !s.inBonus && !s.ending
    case BonusOver => s.inGame && s.inBonus
    case EndGameTask => s.ending
  }

  function Next(c: Config, s: State, e: Step): State
    requires |s.earned| == 5 && s.playerUp < 5 && s.numPlayers < 5
  {
    match e
    case PressStart(restart) => StartButton(c, s, restart)
    case ValidatePlayfield => if s.inGame then s.(validPlayfield := true) else s
    case Tilt => s.(inTilt := true)
    case AwardExtraBall => Award(c, s)
    case BallDrained => EndBall(s)
    case BonusOver => FinishBall(c, s)
    case EndGameTask => StopGame(s)
  }

  ghost predicate Good(c: Config, s: State) {
    GoodConfig(c) && Inv(c, s) && s.playerUp < 5 && s.numPlayers < 5
  }

  lemma PressStartKeeps(c: Config, s: State, restart: bool)
    requires Good(c, s)
    ensures Good(c, StartButton(c, s, restart))
  {
    if !s.inTilt && !s.inGame {
      StartGameKeeps(c, s);
    } else if !s.inTilt && s.numPlayers < c.maxPlayers {
      if s.ballUp == 1 { AddPlayerKeeps(c, s); } else { StartGameKeeps(c, StopGame(s)); }
    }
  }

  lemma NextKeeps(c: Config, s: State, e: Step)
    requires Good(c, s) && Enabled(s, e)
    ensures Good(c, Next(c, s, e))
  {
    match e
    case PressStart(restart) => PressStartKeeps(c, s, restart);
    case AwardExtraBall => AwardKeeps(c, s);
    case BonusOver => FinishBallKeeps(c, s);
    case _ =>
  }

  ghost predicate ProperRun(c: Config, s: State, steps: seq<Step>)
    requires Good(c, s)
    decreases |steps|
  {
    steps == [] || (Enabled(s, steps[0]) && (NextKeeps(c, s, steps[0]); ProperRun(c, Next(c, s, steps[0]), steps[1..])))
  }

  ghost function Run(c: Config, s: State, steps: seq<Step>): State
    requires Good(c, s) && ProperRun(c, s, steps)
    decreases |steps|
  {
    if steps == [] then s else (NextKeeps(c, s, steps[0]); Run(c, Next(c, s, steps[0]), steps[1..]))
  }

  // Every run keeps 1 <= player_up <= num_players <= max_players during a game,
  // and plays the balls in order.
  lemma {:induction false} RunKeepsInv(c: Config, s: State, steps: seq<Step>)
    requires Good(c, s) && ProperRun(c, s, steps)
    ensures Good(c, Run(c, s, steps))
    decreases |steps|
  {
    if steps != [] {
      NextKeeps(c, s, steps[0]);
      RunKeepsInv(c, Next(c, s, steps[0]), steps[1..]);
    }
  }

  // A ball starts with one more turn for the player up; on his first ball of the
  // game his count of extra balls is cleared, and nobody else's.
  lemma StartBallExact(s: State, extra: bool)
    requires s.playerUp < |s.earned|
    ensures var s' := StartBall(s, extra);
      && s'.turns == s.turns + [Turn(s.playerUp, s.ballUp, extra)]
      && |s'.earned| == |s.earned|
      && (forall p | 0 <= p < |s.earned| ::
            s'.earned[p] == if p == s.playerUp && s.ballUp == 1 && s.earnedBip == 0 then 0 else s.earned[p])
      && s' == s.(inTilt := false, validPlayfield := false, turns := s'.turns, earned := s'.earned)
  {
  }

  // A game that has just begun: one player, on ball 1, with his first ball and
  // nothing earned.
  predicate Fresh(s: State) {
    && s.inGame && !s.inBonus && !s.inTilt && !s.validPlayfield && !s.ending
    && s.numPlayers == 1 && s.playerUp == 1 && s.ballUp == 1
    && s.extraBalls == 0 && s.earnedBip == 0 && s.earned == [0, 0, 0, 0, 0]
    && s.turns == [Turn(1, 1, false)] && s.commits == 0
  }

  // What the start button does: it is dead in a tilted game; it begins a game if
  // none is on and it may; during a game that can take a player it adds one on ball
  // 1, and later begins a new game if it may; and otherwise nothing happens.
  lemma StartButtonOutcome(c: Config, s: State, restart: bool)
    ensures var s' := StartButton(c, s, restart);
      if s.inTilt then s' == s
      else if !s.inGame || (s.numPlayers < c.maxPlayers && s.ballUp != 1) then (if restart then Fresh(s') else s' == s)
      else s' == s.(numPlayers := if s.numPlayers < c.maxPlayers then s.numPlayers + 1 else s.numPlayers)
  {
  }

  // A game is started only if none is on, and a stopped one leaves no flag set and
  // nobody up; what was played stays on record.
  lemma StartAndStop(s: State)
    ensures if s.inGame then StartGame(s) == s else Fresh(StartGame(s))
    ensures var s' := StopGame(s);
      && !s'.inGame && !s'.inBonus && !s'.inTilt && !s'.validPlayfield && !s'.ending && s'.playerUp == 0 && s'.ballUp == 0
      && s'.numPlayers == s.numPlayers && s'.extraBalls == s.extraBalls && s'.earnedBip == s.earnedBip
      && s'.earned == s.earned && s'.turns == s.turns && s'.commits == s.commits
  {
  }

  // A drain is taken as the end of the ball exactly if the playfield is valid or
  // the game is tilted.
  lemma DrainCommitsIff(s: State)
    requires !s.inBonus
    ensures EndBall(s) == if s.inGame && (s.validPlayfield || s.inTilt) then s.(inBonus := true) else s
  {
  }

  // Every ball that is started, and no other step, makes the playfield invalid
  // during a game, and no ball starts tilted.
  lemma NewBallInvalid(c: Config, s: State, e: Step)
    requires Good(c, s) && Enabled(s, e) && s.inGame && Next(c, s, e).inGame
    ensures var s' := Next(c, s, e);
      if (e.BonusOver? && !s'.ending) || (e.PressStart? && s'.ballUp != s.ballUp) then !s'.validPlayfield && !s'.inTilt
      else s'.validPlayfield == (s.validPlayfield || e.ValidatePlayfield?) && s'.inTilt == (s.inTilt || e.Tilt?)
  {
  }

  // While the playfield is not validated and nobody tilts, no ball ends.
  lemma {:induction false} NoBallEnds(c: Config, s: State, steps: seq<Step>)
    requires Good(c, s) && ProperRun(c, s, steps) && s.inGame && !s.ending
    requires !s.inBonus && !s.validPlayfield && !s.inTilt
    requires forall e | e in steps :: !e.ValidatePlayfield? && !e.Tilt?
    ensures forall e | e in steps :: !e.BonusOver?
    ensures var s' := Run(c, s, steps); !s'.inBonus && !s'.validPlayfield && !s'.inTilt
    decreases |steps|
  {
    if steps != [] {
      NextKeeps(c, s, steps[0]);
      var s1 := Next(c, s, steps[0]);
      assert steps[0] in steps && forall e | e in steps[1..] :: e in steps;
      assert s1.inGame && !s1.ending && !s1.inBonus && !s1.validPlayfield && !s1.inTilt;
      NoBallEnds(c, s1, steps[1..]);
      assert steps == [steps[0]] + steps[1..];
    }
  }

  // An extra ball is awarded exactly below both limits: one more to play, one more
  // for this ball, and one more for this player and nobody else.
  lemma AwardExact(c: Config, s: State)
    requires s.playerUp < |s.earned|
    ensures var s' := Award(c, s);
      if s.earned[s.playerUp] < c.maxEbs && s.earnedBip < c.maxEbsPerBip then
        && s'.extraBalls == s.extraBalls + 1 && s'.earnedBip == s.earnedBip + 1
        && |s'.earned| == |s.earned|
        && (forall p | 0 <= p < |s.earned| :: s'.earned[p] == s.earned[p] + if p == s.playerUp then 1 else 0)
        && s' == s.(extraBalls := s'.extraBalls, earnedBip := s'.earnedBip, earned := s'.earned)
      else s' == s
  {
  }

  // The player changes during a game only when no extra ball is left, and the
  // next player starts with none.
  lemma PlayerChange(c: Config, s: State, e: Step)
    requires Good(c, s) && Enabled(s, e) && s.inGame && Next(c, s, e).inGame
    requires Next(c, s, e).playerUp != s.playerUp && e.BonusOver?
    ensures s.extraBalls == 0 && Next(c, s, e).extraBalls == 0 && Next(c, s, e).earnedBip == 0
  {
  }

  // The order of play is round robin: turn k belongs to player k mod n on ball
  // k div n, counting from zero.
  lemma {:induction false} RoundRobin(n: nat, p: nat, b: nat)
    requires b >= 1 && p <= n
    ensures var o := Order(n, p, b);
      && |o| == n * (b - 1) + p
      && forall k: nat | k < |o| :: o[k] == (k % n + 1, k / n + 1)
    decreases b, p
  {
    if p > 0 {
      RoundRobin(n, p - 1, b);
      DivModUnique(n * (b - 1) + p - 1, n, b - 1, p - 1);
    } else if b > 1 {
      RoundRobin(n, n, b - 1);
    }
  }

  // How many turns player p had.
  function TurnsOf(turns: seq<Turn>, p: nat): nat {
    if turns == [] then 0
    else TurnsOf(turns[..|turns| - 1], p) + if turns[|turns| - 1].player == p then 1 else 0
  }

  function Count(o: seq<(nat, nat)>, p: nat): nat {
    if o == [] then 0 else Count(o[..|o| - 1], p) + if o[|o| - 1].0 == p then 1 else 0
  }

  lemma {:induction false} TurnsSplit(turns: seq<Turn>, p: nat)
    ensures TurnsOf(turns, p) == Count(Regular(turns), p) + Extras(turns, p)
  {
    if turns != [] {
      var rest, t := turns[..|turns| - 1], turns[|turns| - 1];
      TurnsSplit(rest, p);
      if !t.extra { assert Regular(turns)[..|Regular(rest)|] == Regular(rest); }
    }
  }

  lemma CountNone(p: nat)
    ensures Count([], p) == 0
  {
  }

  lemma CountAppend(o: seq<(nat, nat)>, x: (nat, nat), p: nat)
    ensures Count(o + [x], p) == Count(o, p) + if x.0 == p then 1 else 0
  {
    assert (o + [x])[..|o|] == o;
  }

  lemma {:induction false} CountInOrder(n: nat, q: nat, b: nat, p: nat)
    requires q <= n
    ensures Count(Order(n, q, b), p) == if b == 0 || p == 0 || p > n then 0 else if p <= q then b else b - 1
    decreases b, q
  {
    hide Count;
    CountNone(p);
    if b > 0 && q > 0 {
      CountInOrder(n, q - 1, b, p);
      CountAppend(Order(n, q - 1, b), (q, b), p);
    } else if b > 0 {
      CountInOrder(n, n, b - 1, p);
    }
  }

  lemma {:induction false} NoTurns(turns: seq<Turn>, n: nat, p: nat)
    requires PlayedBy(turns, n) && p > n
    ensures TurnsOf(turns, p) == 0
  {
    if turns != [] { NoTurns(turns[..|turns| - 1], n, p); }
  }

  // No player plays more than balls_per_game + max_ebs balls; when the game is
  // over everybody has played every regular ball.
  lemma TurnBound(c: Config, s: State, p: nat)
    requires Good(c, s) && s.inGame && 1 <= p
    ensures TurnsOf(s.turns, p) <= c.ballsPerGame + c.maxEbs
    ensures s.ending && p <= s.numPlayers ==> Count(Regular(s.turns), p) == c.ballsPerGame
  {
    if p > s.numPlayers {
      NoTurns(s.turns, s.numPlayers, p);
    } else {
      TurnsSplit(s.turns, p);
      if s.ending {
        CountInOrder(s.numPlayers, s.numPlayers, c.ballsPerGame, p);
      } else {
        CountInOrder(s.numPlayers, s.playerUp, s.ballUp, p);
      }
    }
  }

  // The turns of the players from 1 to n together.
  function TurnsUpTo(turns: seq<Turn>, n: nat): nat {
    if n == 0 then 0 else TurnsUpTo(turns, n - 1) + TurnsOf(turns, n)
  }

  lemma {:induction false} OneTurnMore(turns: seq<Turn>, n: nat)
    requires turns != []
    ensures var t := turns[|turns| - 1];
      TurnsUpTo(turns, n) == TurnsUpTo(turns[..|turns| - 1], n) + if 1 <= t.player <= n then 1 else 0
  {
    if n > 0 { OneTurnMore(turns, n - 1); }
  }

  lemma {:induction false} AllTurns(turns: seq<Turn>, n: nat)
    requires PlayedBy(turns, n)
    ensures |turns| == TurnsUpTo(turns, n)
  {
    if turns == [] {
      NoTurnsAtAll(n);
    } else {
      OneTurnMore(turns, n);
      AllTurns(turns[..|turns| - 1], n);
    }
  }

  lemma {:induction false} NoTurnsAtAll(n: nat)
    ensures TurnsUpTo([], n) == 0
  {
    if n > 0 { NoTurnsAtAll(n - 1); }
  }

  lemma {:induction false} TurnsUpToBound(c: Config, s: State, n: nat)
    requires Good(c, s) && s.inGame
    ensures TurnsUpTo(s.turns, n) <= n * (c.ballsPerGame + c.maxEbs)
  {
    if n > 0 {
      TurnsUpToBound(c, s, n - 1);
      TurnBound(c, s, n);
      OneMore(n, c.ballsPerGame + c.maxEbs);
    }
  }

  // The game ends: each end of ball that is not refused uses up one turn, and
  // there are at most max_players * (balls_per_game + max_ebs) of them.
  lemma CommitBound(c: Config, s: State)
    requires Good(c, s) && s.inGame
    ensures s.commits <= c.maxPlayers * (c.ballsPerGame + c.maxEbs)
    ensures !s.ending ==> s.commits < c.maxPlayers * (c.ballsPerGame + c.maxEbs)
  {
    AllTurns(s.turns, s.numPlayers);
    TurnsUpToBound(c, s, s.numPlayers);
    Monotone(s.numPlayers, c.maxPlayers, c.ballsPerGame + c.maxEbs);
  }

  lemma OneMore(n: nat, k: nat)
    requires n > 0
    ensures n * k == (n - 1) * k + k
  {
  }

  lemma Monotone(a: nat, b: nat, k: nat)
    requires a <= b
    ensures a * k <= b * k
  {
  }
}
