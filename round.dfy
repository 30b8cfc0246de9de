/**
 * The round countdown every driver runs once a second while the game is not
 * frozen: count down to zero, then open the quiz and start the next round from
 * the driver's own `reset` value.
 */
module Round {

  /** The countdown after one unfrozen tick (`countdown > 0` decrements, anything else resets). */
  function Next(countdown: int, reset: nat): (r: int)
    ensures countdown >= 0 ==> r >= 0
    ensures countdown > 0 ==> r < countdown
    ensures !FiresQuiz(countdown) || r == reset
  {
    if countdown > 0 then countdown - 1 else reset
  }

  /** Whether the tick at this countdown value opens the quiz instead of counting down. */
  predicate FiresQuiz(countdown: int) {
    !(countdown > 0)
  }

  /** The countdown after `n` unfrozen ticks. */
  function After(countdown: int, reset: nat, n: nat): int
    decreases n
  {
    if n == 0 then countdown else After(Next(countdown, reset), reset, n - 1)
  }

  /** How many of `n` unfrozen ticks open the quiz. */
  function Quizzes(countdown: int, reset: nat, n: nat): nat
    decreases n
  {
    if n == 0 then 0 else (if FiresQuiz(countdown) then 1 else 0) + Quizzes(Next(countdown, reset), reset, n - 1)
  }

  /** How many of `n` unfrozen steps count down (and so pay the per-second point trickle where a driver has one). */
  function CountingTicks(countdown: int, reset: nat, n: nat): nat
    decreases n
  {
    if n == 0 then 0 else (if FiresQuiz(countdown) then 0 else 1) + CountingTicks(Next(countdown, reset), reset, n - 1)
  }

  /**
   * A whole round: from `countdown`, the first `countdown` ticks only count
   * down, and the next one opens the quiz exactly once and restarts the count
   * at `reset`.
   */
  lemma {:induction false} FullRound(countdown: nat, reset: nat)
    ensures After(countdown, reset, countdown + 1) == reset
    ensures Quizzes(countdown, reset, countdown + 1) == 1
    ensures CountingTicks(countdown, reset, countdown + 1) == countdown
  {
    if countdown > 0 {
      FullRound(countdown - 1, reset);
    }
  }

  /** Before the count reaches zero no tick opens the quiz. */
  lemma {:induction false} NoQuizMidRound(countdown: nat, reset: nat, n: nat)
    requires n <= countdown
    ensures After(countdown, reset, n) == countdown - n
    ensures Quizzes(countdown, reset, n) == 0
    ensures CountingTicks(countdown, reset, n) == n
  {
    if n > 0 {
      NoQuizMidRound(countdown - 1, reset, n - 1);
    }
  }
}
