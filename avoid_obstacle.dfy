/**
 * The obstacle-avoidance driver (`useGame` of the AvoidObstacle game): it owns
 * the obstacle list, the spawn speed, the dodge flag and the round countdown,
 * and reports hits, points and quiz time to the shared game core. Each timer
 * callback and handler is one method; `settingsVisible` is the flag the
 * settings panel supplies at the moment the callback runs.
 */
module AvoidObstacle {
  import opened Wrappers
  import opened Entities
  import opened ObstacleField
  import Round
  import Core

  const StartCountdown := 5
  const RoundLength := 20
  /** The survival bonus of one countdown second, 0.05 points in hundredths. */
  const Trickle := 5

  class ObstacleGame {
    const core: Core.GameCore
    /** The window width; obstacles enter at this x position. */
    const width: real
    /** `movingPlayerX = width / 4`: the player's fixed x position. */
    const playerX: real
    var countdown: int
    var isTouching: bool
    var obstacles: seq<Obstacle>
    var speed: int

    ghost predicate Valid()
      reads this
    {
      countdown >= 0 && MinSpeed <= speed <= StartSpeed && DistinctIds(obstacles) && playerX == width / 4.0
    }

    /** The condition every timer of the driver checks: quiz pending or settings open. */
    predicate Frozen(settingsVisible: bool)
      reads this, core
    {
      core.State().Frozen(settingsVisible)
    }

    constructor (core: Core.GameCore, width: real)
      ensures Valid() && this.core == core && this.width == width
      ensures countdown == StartCountdown && !isTouching && obstacles == [] && speed == StartSpeed
    {
      this.core := core;
      this.width := width;
      playerX := width / 4.0;
      countdown := StartCountdown;
      isTouching := false;
      obstacles := [];
      speed := StartSpeed;
    }

    /** The 2 s spawn interval: one new obstacle at the right edge, not yet hit. */
    method Spawn(id: int, settingsVisible: bool)
      requires Valid() && Fresh(obstacles, id)
      modifies this
      ensures Valid()
      ensures obstacles == if Frozen(settingsVisible) then old(obstacles) else old(obstacles) + [Entity(id, width, false)]
      ensures countdown == old(countdown) && isTouching == old(isTouching) && speed == old(speed)
    {
      if core.IsQuizToAnswer() || settingsVisible {
        return;
      }
      AppendFreshKeepsDistinct(obstacles, Entity(id, width, false));
      obstacles := obstacles + [Entity(id, width, false)];
    }

    /** The obstacle's slide: its x position as the animation reports it. */
    method Animate(id: int, x: real)
      requires Valid()
      modifies this
      ensures Valid()
      ensures obstacles == MoveTo(old(obstacles), id, x)
      ensures countdown == old(countdown) && isTouching == old(isTouching) && speed == old(speed)
    {
      obstacles := MoveTo(obstacles, id, x);
    }

    /** The end of the slide: the obstacle with this id leaves the list. */
    method Expire(id: int)
      requires Valid()
      modifies this
      ensures Valid()
      ensures obstacles == Without(old(obstacles), id)
      ensures countdown == old(countdown) && isTouching == old(isTouching) && speed == old(speed)
    {
      WithoutKeepsDistinct(obstacles, id);
      obstacles := Without(obstacles, id);
    }

    /** The 30 s difficulty ramp. */
    method SpeedUp(settingsVisible: bool)
      requires Valid()
      modifies this
      ensures Valid()
      ensures speed == if Frozen(settingsVisible) then old(speed) else NextSpeed(old(speed))
      ensures speed <= old(speed)
      ensures countdown == old(countdown) && isTouching == old(isTouching) && obstacles == old(obstacles)
    {
      if !core.IsQuizToAnswer() && !settingsVisible {
        speed := NextSpeed(speed);
      }
    }

    /** One step of the countdown effect: a one-second interval firing with its 0.05 point trickle, or, once the count is out, the immediate quiz step. */
    method Tick(settingsVisible: bool)
      requires Valid()
      modifies this, core
      ensures Valid()
      ensures old(Frozen(settingsVisible)) ==> countdown == old(countdown) && core.State() == old(core.State())
      ensures !old(Frozen(settingsVisible)) ==>
        countdown == Round.Next(old(countdown), RoundLength) &&
        core.State() == if Round.FiresQuiz(old(countdown)) then old(core.State()).ShowQuiz()
                        else old(core.State()).EarnPoint(Some(Trickle))
      ensures isTouching == old(isTouching) && obstacles == old(obstacles) && speed == old(speed)
    {
      if core.IsQuizToAnswer() || settingsVisible {
        return;
      }
      if countdown > 0 {
        core.EarnPoint(Some(Trickle));
        countdown := countdown - 1;
      } else {
        core.ShowQuiz();
        countdown := RoundLength;
      }
    }

    /**
     * The 100 ms collision scan: unless a quiz is pending, every obstacle close
     * to the player while the player is not dodging, and not hit before, costs
     * one `loseLife` call and is marked as hit.
     */
    method CheckCollision(settingsVisible: bool)
      requires Valid()
      modifies this, core
      ensures Valid()
      ensures old(core.IsQuizToAnswer()) ==> obstacles == old(obstacles) && core.State() == old(core.State())
      ensures !old(core.IsQuizToAnswer()) ==>
        obstacles == MarkHits(old(obstacles), playerX, isTouching) &&
        core.State() == old(core.State()).LoseLifeTimes(settingsVisible, CountHits(old(obstacles), playerX, isTouching))
      ensures countdown == old(countdown) && isTouching == old(isTouching) && speed == old(speed)
    {
      if core.IsQuizToAnswer() {
        return;
      }
      var scanned: seq<Obstacle> := [];
      var i := 0;
      while i < |obstacles|
        invariant 0 <= i <= |obstacles|
        invariant obstacles == old(obstacles) && countdown == old(countdown)
        invariant isTouching == old(isTouching) && speed == old(speed)
        invariant scanned == MarkHits(obstacles[..i], playerX, isTouching)
        invariant core.State() == old(core.State()).LoseLifeTimes(settingsVisible, CountHits(obstacles[..i], playerX, isTouching))
      {
        var o := obstacles[i];
        ScanStep(obstacles, i, playerX, isTouching);
        if Collides(playerX, isTouching, o) {
          core.LoseLife(settingsVisible);
          scanned := scanned + [o.(resolved := true)];
        } else {
          scanned := scanned + [o];
        }
        i := i + 1;
      }
      assert obstacles[..i] == obstacles;
      MarkHitsKeepsDistinct(obstacles, playerX, isTouching);
      obstacles := scanned;
    }

    /** A press: the player dodges (exempt from collisions). */
    method TouchStart()
      requires Valid()
      modifies this
      ensures Valid() && isTouching
      ensures countdown == old(countdown) && obstacles == old(obstacles) && speed == old(speed)
    {
      isTouching := true;
    }

    /** The release, or the 500 ms dodge timeout: the player is exposed again. */
    method TouchEnd()
      requires Valid()
      modifies this
      ensures Valid() && !isTouching
      ensures countdown == old(countdown) && obstacles == old(obstacles) && speed == old(speed)
    {
      isTouching := false;
    }

    /** The callback handed to the core's `restartGame`: clear the field and start a full round. */
    method RestartGameCallBack()
      requires Valid()
      modifies this
      ensures Valid()
      ensures obstacles == [] && speed == StartSpeed && countdown == RoundLength && isTouching == old(isTouching)
    {
      obstacles := [];
      speed := StartSpeed;
      countdown := RoundLength;
    }

    /** `restartGame`: the core resets the session, then runs this driver's callback once. */
    method RestartGame()
      requires Valid()
      modifies this, core
      ensures Valid()
      ensures core.State() == Core.Initial
      ensures obstacles == [] && speed == StartSpeed && countdown == RoundLength && isTouching == old(isTouching)
    {
      core.RestartGame();
      RestartGameCallBack();
    }

    /** A correct answer: a new round, one more life and one more point. */
    method OnCorrectAnswer()
      requires Valid()
      modifies this, core
      ensures Valid()
      ensures countdown == RoundLength
      ensures core.State() == old(core.State()).EarnLife(Some(1)).EarnPoint(Some(Core.OnePoint))
      ensures isTouching == old(isTouching) && obstacles == old(obstacles) && speed == old(speed)
    {
      countdown := RoundLength;
      core.EarnLife(Some(1));
      core.EarnPoint(Some(Core.OnePoint));
    }

    /** A wrong answer: only a new round. */
    method OnWrongAnswer()
      requires Valid()
      modifies this
      ensures Valid()
      ensures countdown == RoundLength
      ensures isTouching == old(isTouching) && obstacles == old(obstacles) && speed == old(speed)
    {
      countdown := RoundLength;
    }

    /**
     * The core's `onAnswer` bound to this driver's callbacks. The restart
     * branch is never selected (`Core.RestartBranchUnreachable`), so it has
     * no case here.
     */
    method OnAnswer(isCorrect: bool)
      requires Valid()
      modifies this, core
      ensures Valid()
      ensures var before := old(core.State());
        match before.AnswerBranch(isCorrect)
        case CorrectAnswer =>
          core.State() == before.Answer(isCorrect).EarnLife(Some(1)).EarnPoint(Some(Core.OnePoint)) && countdown == RoundLength
        case WrongAnswer => core.State() == before.Answer(isCorrect) && countdown == RoundLength
        case _ => core.State() == before.Answer(isCorrect) && countdown == old(countdown)
      ensures !core.IsQuizToAnswer()
      ensures isTouching == old(isTouching) && obstacles == old(obstacles) && speed == old(speed)
    {
      var callback := core.OnAnswer(isCorrect);
      match callback
      case CorrectAnswer => OnCorrectAnswer();
      case WrongAnswer => OnWrongAnswer();
      case NoCallback =>
    }
  }
}
