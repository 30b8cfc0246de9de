/**
 * The older single-hook version of the obstacle game (`hooks/useGame.tsx`):
 * one hook owns both the session (lives, points, game over, quiz) and the
 * obstacle field. Unlike the shared game core, its `loseLife` has no pause or
 * quiz guard, its answer handling acts only while lives remain, and it calls
 * the one external `onCorrectAnswer` callback it is given.
 */
module Legacy {
  import opened Entities
  import opened ObstacleField
  import Round

  const StartLives := 3
  const StartCountdown := 5
  const RoundLength := 20
  /** The survival bonus of one countdown second, 0.05 points in hundredths. */
  const Trickle := 5
  const OnePoint := 100

  /** A snapshot of the hook's state variables. */
  datatype Game = Game(
    lives: int, points: int, isTouching: bool, isGameOver: bool,
    obstacles: seq<Obstacle>, speed: int, quizVisible: bool, countdown: int)
  {
    /** `displayQuiz`: the quiz (or the game-over prompt) is shown. */
    predicate DisplayQuiz() {
      quizVisible || isGameOver
    }

    predicate Frozen(settingsVisible: bool) {
      DisplayQuiz() || settingsVisible
    }

    function Spawn(id: int, width: real, settingsVisible: bool): Game {
      if Frozen(settingsVisible) then this else this.(obstacles := obstacles + [Entity(id, width, false)])
    }

    function Animate(id: int, x: real): Game {
      this.(obstacles := MoveTo(obstacles, id, x))
    }

    function Expire(id: int): Game {
      this.(obstacles := Without(obstacles, id))
    }

    function SpeedUp(settingsVisible: bool): Game {
      if Frozen(settingsVisible) then this else this.(speed := NextSpeed(speed))
    }

    /**
     * One step of the countdown effect: an interval firing that pays the trickle
     * (`Math.round((p + 0.05) * 100) / 100` is exactly `p + 5` in hundredths) and
     * counts down, or, once the count is out, the effect's immediate quiz step.
     */
    function Tick(settingsVisible: bool): Game {
      if Frozen(settingsVisible) then this
      else if Round.FiresQuiz(countdown) then this.(quizVisible := true, countdown := Round.Next(countdown, RoundLength))
      else this.(points := points + Trickle, countdown := Round.Next(countdown, RoundLength))
    }

    /** `n` successive countdown steps. */
    function Ticks(settingsVisible: bool, n: nat): Game
      decreases n
    {
      if n == 0 then this else Tick(settingsVisible).Ticks(settingsVisible, n - 1)
    }

    /** `loseLife`, with no guard at all. */
    function LoseLife(): Game {
      if lives > 1 then this.(lives := lives - 1) else this.(isGameOver := true)
    }

    function LoseLifeTimes(k: nat): Game
      decreases k
    {
      if k == 0 then this else LoseLifeTimes(k - 1).LoseLife()
    }

    /** The 100 ms collision scan, skipped while the quiz is shown. */
    function CheckCollision(playerX: real): Game {
      if DisplayQuiz() then this
      else LoseLifeTimes(CountHits(obstacles, playerX, isTouching)).(obstacles := MarkHits(obstacles, playerX, isTouching))
    }

    function TouchStart(): Game {
      this.(isTouching := true)
    }

    function TouchEnd(): Game {
      this.(isTouching := false)
    }

    function Restart(): Game {
      this.(lives := StartLives, isGameOver := false, obstacles := [], points := 0,
            speed := StartSpeed, quizVisible := false, countdown := RoundLength)
    }

    /** Whether `onAnswer` acts (and so calls `onCorrectAnswer`). */
    predicate AnswerActs() {
      lives > 0
    }

    function Answer(): Game {
      if AnswerActs() then this.(isGameOver := false, quizVisible := false, countdown := RoundLength) else this
    }

    /** `onCorrectAnswerHandler`: one life and one point, then `onAnswer`. */
    function Rewarded(): Game {
      this.(lives := lives + 1, points := points + OnePoint)
    }

    function CorrectAnswer(): Game {
      Rewarded().Answer()
    }

    /** `onWrongAnswer`: `onAnswer`, then a restart when lives are negative. */
    function WrongAnswer(): Game {
      if lives < 0 then Answer().Restart() else Answer()
    }
  }

  function Initial(): Game {
    Game(StartLives, 0, false, false, [], StartSpeed, false, StartCountdown)
  }

  /** The hook's invariant on every state the game can reach. */
  predicate Inv(g: Game) {
    g.lives >= 1 && MinSpeed <= g.speed <= StartSpeed && g.countdown >= 0
  }

  /** The hook at mount time: three lives, no points, start speed, a five second first round, nothing shown. */
  lemma InitialState()
    ensures Inv(Initial()) && !Initial().DisplayQuiz()
    ensures Initial().lives == 3 && Initial().points == 0 && Initial().speed == 4000 && Initial().countdown == 5
  {
  }

  /** `loseLife` takes a life even while the quiz or settings are shown: there is no guard. */
  lemma LoseLifeUnguarded(g: Game)
    ensures g.lives > 1 ==> g.LoseLife().lives == g.lives - 1 && g.LoseLife().isGameOver == g.isGameOver
    ensures g.lives <= 1 ==> g.LoseLife().lives == g.lives && g.LoseLife().isGameOver
  {
  }

  /** However many lives the scan takes, at least one is left. */
  lemma {:induction false} LoseLifeTimesKeepsALife(g: Game, k: nat)
    requires g.lives >= 1
    ensures g.LoseLifeTimes(k).lives >= 1
    ensures g.LoseLifeTimes(k) == g.(lives := g.LoseLifeTimes(k).lives, isGameOver := g.LoseLifeTimes(k).isGameOver)
    decreases k
  {
    if k > 0 {
      LoseLifeTimesKeepsALife(g, k - 1);
    }
  }

  /** An unfrozen countdown step: 0.05 points and one second less, or at zero the quiz and a full round. */
  lemma TickStep(g: Game, settingsVisible: bool)
    requires !g.Frozen(settingsVisible)
    ensures g.countdown > 0 ==> g.Tick(settingsVisible) == g.(points := g.points + 5, countdown := g.countdown - 1)
    ensures g.countdown <= 0 ==> g.Tick(settingsVisible).quizVisible && g.Tick(settingsVisible).countdown == 20
  {
  }

  /**
   * The legacy countdown is the shared round countdown: while no quiz opens,
   * each counting step pays the trickle and follows `Round.Next`; the quiz opens on
   * the step `Round.FiresQuiz` names.
   */
  lemma {:induction false} TicksFollowRound(g: Game, settingsVisible: bool, n: nat)
    requires !g.Frozen(settingsVisible) && 0 <= g.countdown && n <= g.countdown + 1
    ensures g.Ticks(settingsVisible, n) == g.(
      points := g.points + Trickle * Round.CountingTicks(g.countdown, RoundLength, n),
      quizVisible := Round.Quizzes(g.countdown, RoundLength, n) > 0,
      countdown := Round.After(g.countdown, RoundLength, n))
    decreases n
  {
    if n > 0 && g.countdown > 0 {
      TicksFollowRound(g.Tick(settingsVisible), settingsVisible, n - 1);
    }
  }

  /**
   * A whole legacy round: from countdown `c`, `c` counting seconds pay `c`
   * trickles of 0.05 points, then the effect's immediate quiz step (the
   * `c + 1`-th step) opens the quiz once with a fresh 20 s count.
   */
  lemma LegacyFullRound(g: Game, settingsVisible: bool)
    requires !g.Frozen(settingsVisible) && 0 <= g.countdown
    ensures g.Ticks(settingsVisible, g.countdown + 1) ==
      g.(points := g.points + Trickle * g.countdown, quizVisible := true, countdown := RoundLength)
  {
    TicksFollowRound(g, settingsVisible, g.countdown + 1);
    Round.FullRound(g.countdown, RoundLength);
  }

  /** `onAnswer` acts only while lives remain: it then closes the quiz and starts a full round. */
  lemma AnswerOnlyWithLives(g: Game)
    ensures g.lives <= 0 ==> g.Answer() == g
    ensures g.lives > 0 ==> !g.Answer().DisplayQuiz() && g.Answer().countdown == RoundLength
    ensures g.Answer().lives == g.lives && g.Answer().points == g.points
  {
  }

  /** A correct answer adds exactly one life and one point. */
  lemma CorrectAnswerRewards(g: Game)
    ensures g.CorrectAnswer().lives == g.lives + 1 && g.CorrectAnswer().points == g.points + OnePoint
  {
  }

  /** Everything the timers and handlers of the hook can do. */
  datatype Event =
    | SpawnEvent(id: int, settingsVisible: bool)
    | AnimateEvent(id: int, x: real)
    | ExpireEvent(id: int)
    | SpeedUpEvent(settingsVisible: bool)
    | TickEvent(settingsVisible: bool)
    | CollisionEvent
    | TouchStartEvent
    | TouchEndEvent
    | CorrectAnswerEvent
    | WrongAnswerEvent

  function Apply(g: Game, e: Event, width: real): Game {
    match e
    case SpawnEvent(id, settingsVisible) => g.Spawn(id, width, settingsVisible)
    case AnimateEvent(id, x) => g.Animate(id, x)
    case ExpireEvent(id) => g.Expire(id)
    case SpeedUpEvent(settingsVisible) => g.SpeedUp(settingsVisible)
    case TickEvent(settingsVisible) => g.Tick(settingsVisible)
    case CollisionEvent => g.CheckCollision(width / 4.0)
    case TouchStartEvent => g.TouchStart()
    case TouchEndEvent => g.TouchEnd()
    case CorrectAnswerEvent => g.CorrectAnswer()
    case WrongAnswerEvent => g.WrongAnswer()
  }

  function Run(g: Game, trace: seq<Event>, width: real): Game
    decreases |trace|
  {
    if trace == [] then g else Run(Apply(g, trace[0], width), trace[1..], width)
  }

  /** Every step keeps the invariant: at least one life, speed within the ramp, countdown not negative. */
  lemma ApplyKeepsInv(g: Game, e: Event, width: real)
    requires Inv(g)
    ensures Inv(Apply(g, e, width))
  {
    if e.CollisionEvent? && !g.DisplayQuiz() {
      LoseLifeTimesKeepsALife(g, CountHits(g.obstacles, width / 4.0, g.isTouching));
    }
  }

  /** Every run from a state satisfying the invariant keeps it. */
  lemma {:induction false} RunKeepsInv(g: Game, trace: seq<Event>, width: real)
    requires Inv(g)
    ensures Inv(Run(g, trace, width))
    decreases |trace|
  {
    if trace != [] {
      ApplyKeepsInv(g, trace[0], width);
      RunKeepsInv(Apply(g, trace[0], width), trace[1..], width);
    }
  }

  /**
   * The restart in `onWrongAnswer` is dead: in every reachable state lives
   * are at least one, so `lives < 0` never holds and a wrong answer is just
   * `onAnswer`, which always acts.
   */
  lemma WrongAnswerNeverRestarts(trace: seq<Event>, width: real)
    ensures var g := Run(Initial(), trace, width);
      !(g.lives < 0) && g.AnswerActs() && g.WrongAnswer() == g.Answer()
    ensures MinSpeed <= Run(Initial(), trace, width).speed <= StartSpeed
  {
    RunKeepsInv(Initial(), trace, width);
  }

  /** The legacy hook object. */
  class LegacyGame {
    /** The window width; obstacles enter at this x position. */
    const width: real
    /** `movingPlayerX = width / 4`. */
    const playerX: real
    var lives: int
    var points: int
    var isTouching: bool
    var isGameOver: bool
    var obstacles: seq<Obstacle>
    var speed: int
    var quizVisible: bool
    var countdown: int

    function State(): Game
      reads this
    {
      Game(lives, points, isTouching, isGameOver, obstacles, speed, quizVisible, countdown)
    }

    ghost predicate Valid()
      reads this
    {
      DistinctIds(obstacles) && playerX == width / 4.0
    }

    constructor (width: real)
      ensures Valid() && this.width == width && State() == Initial()
    {
      this.width := width;
      playerX := width / 4.0;
      lives, points, isTouching, isGameOver := StartLives, 0, false, false;
      obstacles, speed, quizVisible, countdown := [], StartSpeed, false, StartCountdown;
    }

    predicate DisplayQuiz()
      reads this
    {
      State().DisplayQuiz()
    }

    method Spawn(id: int, settingsVisible: bool)
      requires Valid() && Fresh(obstacles, id)
      modifies this
      ensures Valid() && State() == old(State()).Spawn(id, width, settingsVisible)
    {
      if DisplayQuiz() || settingsVisible {
        return;
      }
      AppendFreshKeepsDistinct(obstacles, Entity(id, width, false));
      obstacles := obstacles + [Entity(id, width, false)];
    }

    method Animate(id: int, x: real)
      requires Valid()
      modifies this
      ensures Valid() && State() == old(State()).Animate(id, x)
    {
      obstacles := MoveTo(obstacles, id, x);
    }

    method Expire(id: int)
      requires Valid()
      modifies this
      ensures Valid() && State() == old(State()).Expire(id)
    {
      WithoutKeepsDistinct(obstacles, id);
      obstacles := Without(obstacles, id);
    }

    method SpeedUp(settingsVisible: bool)
      requires Valid()
      modifies this
      ensures Valid() && State() == old(State()).SpeedUp(settingsVisible)
    {
      if !DisplayQuiz() && !settingsVisible {
        speed := NextSpeed(speed);
      }
    }

    method Tick(settingsVisible: bool)
      requires Valid()
      modifies this
      ensures Valid() && State() == old(State()).Tick(settingsVisible)
    {
      if DisplayQuiz() || settingsVisible {
        return;
      }
      if countdown > 0 {
        points := points + Trickle;
        countdown := countdown - 1;
      } else {
        quizVisible := true;
        countdown := RoundLength;
      }
    }

    method LoseLife()
      modifies this
      ensures State() == old(State()).LoseLife()
    {
      if lives > 1 {
        lives := lives - 1;
      } else {
        isGameOver := true;
      }
    }

    method CheckCollision()
      requires Valid()
      modifies this
      ensures Valid() && State() == old(State()).CheckCollision(playerX)
    {
      if DisplayQuiz() {
        return;
      }
      ghost var before := State();
      var scanned: seq<Obstacle> := [];
      var i := 0;
      while i < |obstacles|
        invariant 0 <= i <= |obstacles|
        invariant Valid() && obstacles == before.obstacles && isTouching == before.isTouching
        invariant State() == before.LoseLifeTimes(CountHits(obstacles[..i], playerX, isTouching))
        invariant scanned == MarkHits(obstacles[..i], playerX, isTouching)
      {
        var o := obstacles[i];
        ScanStep(obstacles, i, playerX, isTouching);
        if Collides(playerX, isTouching, o) {
          LoseLife();
          scanned := scanned + [o.(resolved := true)];
        } else {
          scanned := scanned + [o];
        }
        i := i + 1;
      }
      assert obstacles[..i] == obstacles;
      MarkHitsKeepsDistinct(obstacles, playerX, isTouching);
      ghost var after := before.LoseLifeTimes(CountHits(obstacles, playerX, isTouching));
      assert State() == after;
      obstacles := scanned;
      assert State() == after.(obstacles := scanned);
    }

    method TouchStart()
      requires Valid()
      modifies this
      ensures Valid() && State() == old(State()).TouchStart()
    {
      isTouching := true;
    }

    method TouchEnd()
      requires Valid()
      modifies this
      ensures Valid() && State() == old(State()).TouchEnd()
    {
      isTouching := false;
    }

    method RestartGame()
      requires Valid()
      modifies this
      ensures Valid() && State() == old(State()).Restart()
    {
      lives := StartLives;
      isGameOver := false;
      obstacles := [];
      points := 0;
      speed := StartSpeed;
      quizVisible := false;
      countdown := RoundLength;
    }

    /** `onAnswer`: returns whether it called the external `onCorrectAnswer` callback. */
    method OnAnswer() returns (calledOnCorrectAnswer: bool)
      requires Valid()
      modifies this
      ensures Valid() && State() == old(State()).Answer()
      ensures calledOnCorrectAnswer == old(State()).AnswerActs()
    {
      calledOnCorrectAnswer := false;
      if lives > 0 {
        isGameOver := false;
        quizVisible := false;
        countdown := RoundLength;
        calledOnCorrectAnswer := true;
      }
    }

    method OnCorrectAnswerHandler() returns (calledOnCorrectAnswer: bool)
      requires Valid()
      modifies this
      ensures Valid() && State() == old(State()).CorrectAnswer()
      ensures calledOnCorrectAnswer == old(State()).Rewarded().AnswerActs()
    {
      lives := lives + 1;
      points := points + OnePoint;
      calledOnCorrectAnswer := OnAnswer();
    }

    method OnWrongAnswer() returns (calledOnCorrectAnswer: bool)
      requires Valid()
      modifies this
      ensures Valid() && State() == old(State()).WrongAnswer()
      ensures calledOnCorrectAnswer == old(State()).AnswerActs()
    {
      calledOnCorrectAnswer := OnAnswer();
      if lives < 0 {
        RestartGame();
      }
    }
  }
}
