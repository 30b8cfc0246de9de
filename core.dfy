/**
 * The shared session state machine of the arcade games (`useGameCore`):
 * lives, points, the game-over flag and the quiz flag, with the mutators the
 * drivers call. Points are kept in hundredths (the only fraction the games
 * award is 0.05 = 5 hundredths).
 */
module Core {
  import opened Wrappers

  const StartLives := 3
  /** One whole point, in hundredths. */
  const OnePoint := 100

  /** JavaScript's `n || 1`: an absent or zero amount stands for one `unit`. */
  function OrOne(n: Option<int>, unit: int): int {
    if n.None? || n.value == 0 then unit else n.value
  }

  /** The branch `onAnswer` takes, i.e. the caller-supplied callback it invokes. */
  datatype Callback = CorrectAnswer | WrongAnswer | Restart | NoCallback

  /** A snapshot of the hook's four state variables. */
  datatype Session = Session(lives: int, points: int, isGameOver: bool, quizVisible: bool)
  {
    /** The derived flag: a quiz (or the game-over prompt) is waiting for an answer. */
    predicate IsQuizToAnswer() {
      quizVisible || isGameOver
    }

    /** Gameplay is frozen while a quiz is pending or the settings panel is open. */
    predicate Frozen(settingsVisible: bool) {
      IsQuizToAnswer() || settingsVisible
    }

    /** `loseLife`: ignored while frozen; the last life is never taken, game over is raised instead. */
    function LoseLife(settingsVisible: bool): Session {
      if Frozen(settingsVisible) then this
      else if lives > 1 then this.(lives := lives - 1)
      else this.(isGameOver := true)
    }

    /** `k` successive `loseLife` calls. */
    function LoseLifeTimes(settingsVisible: bool, k: nat): Session
      decreases k
    {
      if k == 0 then this else LoseLifeTimes(settingsVisible, k - 1).LoseLife(settingsVisible)
    }

    /** `earnLife(n)`: adds `n || 1` lives, unconditionally. */
    function EarnLife(n: Option<int>): Session {
      this.(lives := lives + OrOne(n, 1))
    }

    /** `earnPoint(n)`, with `n` in hundredths: adds `n || 1` points, unconditionally. */
    function EarnPoint(n: Option<int>): Session {
      this.(points := points + OrOne(n, OnePoint))
    }

    /** `showQuiz`. */
    function ShowQuiz(): Session {
      this.(quizVisible := true)
    }

    /** The if-chain of `onAnswer`, in source order. */
    function AnswerBranch(isCorrect: bool): Callback {
      if isCorrect then CorrectAnswer
      else if lives > 0 && !isCorrect then WrongAnswer
      else if lives == 1 && isGameOver && !isCorrect then Restart
      else NoCallback
    }

    /** The session after `onAnswer`: both flags cleared, unless the restart branch returned early. */
    function Answer(isCorrect: bool): Session {
      if AnswerBranch(isCorrect) == Restart then this
      else this.(isGameOver := false, quizVisible := false)
    }

    /**
     * The branch order the game evidently intends (a wrong answer to the
     * game-over prompt restarts the game): the restart test comes before the
     * ordinary wrong-answer test.
     */
    function AnswerBranchIntended(isCorrect: bool): Callback {
      if isCorrect then CorrectAnswer
      else if lives == 1 && isGameOver then Restart
      else if lives > 0 then WrongAnswer
      else NoCallback
    }
  }

  /** The session at mount time. */
  const Initial := Session(StartLives, 0, false, false)

  /** Nothing is in the way of playing at mount time. */
  lemma InitialIsPlaying()
    ensures Initial.lives == 3 && Initial.points == 0
    ensures !Initial.IsQuizToAnswer() && !Initial.Frozen(false)
  {
  }

  /** However many times `loseLife` is called while frozen, nothing changes. */
  lemma {:induction false} LoseLifeWhileFrozen(s: Session, settingsVisible: bool, k: nat)
    requires s.Frozen(settingsVisible)
    ensures s.LoseLifeTimes(settingsVisible, k) == s
  {
    if k > 0 {
      LoseLifeWhileFrozen(s, settingsVisible, k - 1);
    }
  }

  /** One unfrozen `loseLife`: one life less, or game over at the last life; nothing else moves. */
  lemma LoseLifeStep(s: Session, settingsVisible: bool)
    requires !s.Frozen(settingsVisible)
    ensures var r := s.LoseLife(settingsVisible);
      r.points == s.points && r.quizVisible == s.quizVisible &&
      (s.lives > 1 ==> r.lives == s.lives - 1 && !r.isGameOver) &&
      (s.lives <= 1 ==> r.lives == s.lives && r.isGameOver)
  {
  }

  /**
   * `k` `loseLife` calls from an unfrozen session with at least one life: a
   * life goes per call until one is left, the call that would take the last
   * life raises game over instead, and every later call is a no-op. Lives
   * never drop below one.
   */
  lemma {:induction false} LoseLifeSequence(s: Session, settingsVisible: bool, k: nat)
    requires !s.Frozen(settingsVisible) && s.lives >= 1
    ensures var r := s.LoseLifeTimes(settingsVisible, k);
      r.lives == (if s.lives - k > 1 then s.lives - k else 1) &&
      r.isGameOver == (k >= s.lives) &&
      r.points == s.points && r.quizVisible == s.quizVisible
  {
    if k > 0 {
      LoseLifeSequence(s, settingsVisible, k - 1);
    }
  }

  /** Three hits from a fresh session: game over with one life left; zero lives is never reached. */
  lemma ThreeHitsEndTheGame()
    ensures Initial.LoseLifeTimes(false, 3).lives == 1
    ensures Initial.LoseLifeTimes(false, 3).isGameOver
  {
    LoseLifeSequence(Initial, false, 3);
  }

  /** `earnLife` and `earnPoint` add the amount (one unit when it is absent or zero) and touch nothing else. */
  lemma EarnAddsAmount(s: Session, n: Option<int>)
    ensures s.EarnLife(n) == s.(lives := s.lives + (if n == None || n == Some(0) then 1 else n.value))
    ensures s.EarnPoint(n) == s.(points := s.points + (if n == None || n == Some(0) then OnePoint else n.value))
  {
  }

  /** `showQuiz` raises the quiz flag and leaves lives and points alone. */
  lemma ShowQuizFreezes(s: Session)
    ensures s.ShowQuiz().IsQuizToAnswer()
    ensures s.ShowQuiz().lives == s.lives && s.ShowQuiz().points == s.points
  {
  }

  /** A correct answer always takes the correct-answer callback and clears both flags. */
  lemma CorrectAnswerResumes(s: Session)
    ensures s.AnswerBranch(true) == CorrectAnswer
    ensures !s.Answer(true).IsQuizToAnswer()
    ensures s.Answer(true).lives == s.lives && s.Answer(true).points == s.points
  {
  }

  /** A wrong answer takes the wrong-answer callback exactly when lives are left, and then clears both flags. */
  lemma WrongAnswerBranch(s: Session)
    ensures s.AnswerBranch(false) == WrongAnswer <==> s.lives > 0
    ensures s.lives > 0 ==> !s.Answer(false).IsQuizToAnswer()
  {
  }

  /** The restart branch of `onAnswer` can never be taken: `lives === 1` already satisfies `lives > 0`. */
  lemma RestartBranchUnreachable(s: Session, isCorrect: bool)
    ensures s.AnswerBranch(isCorrect) != Restart
  {
  }

  /**
   * As written, a wrong answer to the game-over prompt does not restart the
   * game: it takes the wrong-answer branch and play resumes with one life.
   */
  lemma GameOverWrongAnswerResumes(s: Session)
    requires s.lives == 1 && s.isGameOver
    ensures s.AnswerBranch(false) == WrongAnswer
    ensures !s.Answer(false).isGameOver && s.Answer(false).lives == 1
  {
  }

  /**
   * With the restart test first, a wrong answer to the game-over prompt
   * restarts, and during play a wrong answer still takes the wrong-answer
   * branch; correct answers are unaffected.
   */
  lemma IntendedAnswerBranch(s: Session, isCorrect: bool)
    ensures s.lives == 1 && s.isGameOver && !isCorrect ==> s.AnswerBranchIntended(isCorrect) == Restart
    ensures !s.isGameOver ==> s.AnswerBranchIntended(isCorrect) == s.AnswerBranch(isCorrect)
    ensures isCorrect ==> s.AnswerBranchIntended(isCorrect) == CorrectAnswer
  {
  }

  /** The scenario of a correct answer at one life and two points: two lives, three points, game on. */
  lemma CorrectAnswerScenario()
    ensures var s := Session(1, 200, true, false).Answer(true).EarnLife(Some(1)).EarnPoint(Some(OnePoint));
      s.lives == 2 && s.points == 300 && !s.isGameOver
  {
  }

  /** Everything the drivers can do to the session. */
  datatype Event =
    | LoseLifeEvent(settingsVisible: bool)
    | EarnLifeEvent(amount: Option<int>)
    | EarnPointEvent(amount: Option<int>)
    | ShowQuizEvent
    | RestartEvent
    | AnswerEvent(isCorrect: bool)

  function Apply(s: Session, e: Event): Session {
    match e
    case LoseLifeEvent(settingsVisible) => s.LoseLife(settingsVisible)
    case EarnLifeEvent(n) => s.EarnLife(n)
    case EarnPointEvent(n) => s.EarnPoint(n)
    case ShowQuizEvent => s.ShowQuiz()
    case RestartEvent => Initial
    case AnswerEvent(isCorrect) => s.Answer(isCorrect)
  }

  function Run(s: Session, trace: seq<Event>): Session
    decreases |trace|
  {
    if trace == [] then s else Run(Apply(s, trace[0]), trace[1..])
  }

  /** The drivers only ever grant lives (`earnLife(1)`), never take them through `earnLife`. */
  predicate NoLifeDrain(trace: seq<Event>) {
    forall i :: 0 <= i < |trace| && trace[i].EarnLifeEvent? ==> OrOne(trace[i].amount, 1) >= 0
  }

  /** Every run from a session with at least one life keeps at least one life. */
  lemma {:induction false} RunKeepsALife(s: Session, trace: seq<Event>)
    requires s.lives >= 1 && NoLifeDrain(trace)
    ensures Run(s, trace).lives >= 1
    decreases |trace|
  {
    if trace != [] {
      assert NoLifeDrain(trace[1..]) by {
        forall i | 0 <= i < |trace[1..]| && trace[1..][i].EarnLifeEvent?
          ensures OrOne(trace[1..][i].amount, 1) >= 0
        {
          assert trace[1..][i] == trace[i + 1];
        }
      }
      assert trace[0].EarnLifeEvent? ==> OrOne(trace[0].amount, 1) >= 0;
      RunKeepsALife(Apply(s, trace[0]), trace[1..]);
    }
  }

  /**
   * In every session the games can reach, a wrong answer takes the
   * wrong-answer callback: never the restart, never no callback at all.
   */
  lemma WrongAnswerAlwaysCallsOnWrong(trace: seq<Event>)
    requires NoLifeDrain(trace)
    ensures Run(Initial, trace).AnswerBranch(false) == WrongAnswer
  {
    RunKeepsALife(Initial, trace);
  }

  /** The `useGameCore` hook: the four state variables, mutated in place by its handlers. */
  class GameCore {
    var lives: int
    var points: int
    var isGameOver: bool
    var quizVisible: bool

    function State(): Session
      reads this
    {
      Session(lives, points, isGameOver, quizVisible)
    }

    predicate IsQuizToAnswer()
      reads this
    {
      State().IsQuizToAnswer()
    }

    constructor ()
      ensures State() == Initial && !IsQuizToAnswer()
    {
      lives, points, isGameOver, quizVisible := StartLives, 0, false, false;
    }

    method LoseLife(settingsVisible: bool)
      modifies this
      ensures State() == old(State()).LoseLife(settingsVisible)
    {
      if IsQuizToAnswer() || settingsVisible {
        return;
      }
      if lives > 1 {
        lives := lives - 1;
      } else {
        isGameOver := true;
      }
    }

    method EarnLife(n: Option<int>)
      modifies this
      ensures State() == old(State()).EarnLife(n)
    {
      lives := lives + OrOne(n, 1);
    }

    /** `n` is in hundredths. */
    method EarnPoint(n: Option<int>)
      modifies this
      ensures State() == old(State()).EarnPoint(n)
    {
      points := points + OrOne(n, OnePoint);
    }

    /** The session half of `restartGame({callback})`; the driver runs its callback right after. */
    method RestartGame()
      modifies this
      ensures State() == Initial
    {
      lives := StartLives;
      isGameOver := false;
      points := 0;
      quizVisible := false;
    }

    /** `onAnswer(callbacks)(isCorrect)`: returns the callback to invoke; the driver invokes it. */
    method OnAnswer(isCorrect: bool) returns (callback: Callback)
      modifies this
      ensures callback == old(State()).AnswerBranch(isCorrect)
      ensures State() == old(State()).Answer(isCorrect)
    {
      if isCorrect {
        callback := CorrectAnswer;
      } else if lives > 0 && !isCorrect {
        callback := WrongAnswer;
      } else if lives == 1 && isGameOver && !isCorrect {
        return Restart;
      } else {
        callback := NoCallback;
      }
      isGameOver := false;
      quizVisible := false;
    }

    method ShowQuiz()
      modifies this
      ensures State() == old(State()).ShowQuiz() && IsQuizToAnswer()
    {
      quizVisible := true;
    }
  }
}
