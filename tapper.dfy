/**
 * The target-tapping driver (`useTapperGame`): targets pop up at random
 * screen positions every second and disappear after 2 s; a tap marks the
 * target, earns 0.05 points and removes it 100 ms later. The round countdown
 * is 4 s with no point trickle.
 */
module Tapper {
  import opened Wrappers
  import opened Entities
  import Round
  import Core

  /** A target's screen position (`top`, `left`). */
  datatype Spot = Spot(top: real, left: real)

  /** `pos` is the target's position and `resolved` its `tapped` flag. */
  type Target = Entity<Spot>

  /** `COUNT_DOWN_QUESTION`: the round length, also the first round's. */
  const CountDownQuestion := 4
  /** The points of one tap, 0.05 in hundredths. */
  const TapPoints := 5

  /** A React ref: an object whose `current` field holds the latest value. */
  datatype Ref<T> = Ref(current: T)

  /** JavaScript truthiness of an object reference: every object is truthy. */
  predicate Truthy<T>(r: Ref<T>) {
    true
  }

  /**
   * The miss-penalty test of the expiry timeout as written: it negates the
   * quiz ref object itself, not the value the ref holds.
   */
  predicate MissPenaltyAsWritten(removed: bool, settingsVisibleRef: Ref<bool>, isQuizToAnswerRef: Ref<bool>) {
    removed && !settingsVisibleRef.current && !Truthy(isQuizToAnswerRef)
  }

  /**
   * The test the expiry timeout evidently means: the target left untapped
   * (`missed`, what the `tapped` guard of the timeout is there to tell) and
   * the game is not frozen, both flags read through `.current`.
   */
  predicate MissPenaltyIntended(missed: bool, settingsVisibleRef: Ref<bool>, isQuizToAnswerRef: Ref<bool>) {
    missed && !settingsVisibleRef.current && !isQuizToAnswerRef.current
  }

  /** As written, a missed target never costs a life, whatever the flags say. */
  lemma MissNeverPenalized(removed: bool, settingsVisible: bool, isQuizToAnswer: bool)
    ensures !MissPenaltyAsWritten(removed, Ref(settingsVisible), Ref(isQuizToAnswer))
  {
  }

  /**
   * With the ref's value tested, a miss costs a life exactly when an
   * untapped target went while the game was running.
   */
  lemma MissPenaltyWhenRunning(missed: bool, settingsVisible: bool, isQuizToAnswer: bool)
    ensures MissPenaltyIntended(missed, Ref(settingsVisible), Ref(isQuizToAnswer)) <==>
      missed && !settingsVisible && !isQuizToAnswer
  {
  }

  /**
   * A missed target is one the expiry really removes: with distinct ids the
   * filter then drops exactly one target, so the length test of the timeout
   * holds whenever the intended penalty applies.
   */
  lemma MissedTargetIsRemoved(s: seq<Target>, id: int)
    requires DistinctIds(s)
    ensures HasUnresolved(s, id) ==> |Without(s, id)| == |s| - 1
  {
    if HasUnresolved(s, id) {
      var k :| 0 <= k < |s| && s[k].id == id && !s[k].resolved;
      WithoutAt(s, k, id);
    }
  }

  /** A tap shortly before the expiry leaves nothing missed: the intended penalty never charges a tapped target. */
  lemma TappedTargetIsNotMissed(s: seq<Target>, id: int, settingsVisible: bool, isQuizToAnswer: bool)
    ensures !HasUnresolved(Resolve(s, id), id)
    ensures !MissPenaltyIntended(HasUnresolved(Resolve(s, id), id), Ref(settingsVisible), Ref(isQuizToAnswer))
  {
  }

  /**
   * `handleTap` has no `tapped` guard: a second tap on the same target before
   * its 100 ms removal marks nothing new, yet the game is still running and
   * the tap pays 0.05 points again.
   */
  lemma SecondTapPaysAgain(session: Core.Session, s: seq<Target>, id: int, settingsVisible: bool)
    requires !session.Frozen(settingsVisible)
    ensures !session.EarnPoint(Some(TapPoints)).Frozen(settingsVisible)
    ensures Resolve(Resolve(s, id), id) == Resolve(s, id)
    ensures session.EarnPoint(Some(TapPoints)).EarnPoint(Some(TapPoints)).points == session.points + 2 * TapPoints
  {
  }

  /** A tap marks only the target with that id; length, order, ids and positions stay. */
  lemma TapMarksOnlyThatTarget(s: seq<Target>, id: int)
    ensures |Resolve(s, id)| == |s|
    ensures forall i :: 0 <= i < |s| && s[i].id != id ==> Resolve(s, id)[i] == s[i]
    ensures forall i :: 0 <= i < |s| && s[i].id == id ==> Resolve(s, id)[i] == s[i].(resolved := true)
  {
  }

  class TapperGame {
    const core: Core.GameCore
    var countdown: int
    var targets: seq<Target>

    ghost predicate Valid()
      reads this
    {
      countdown >= 0 && DistinctIds(targets)
    }

    predicate Frozen(settingsVisible: bool)
      reads this, core
    {
      core.State().Frozen(settingsVisible)
    }

    constructor (core: Core.GameCore)
      ensures Valid() && this.core == core
      ensures countdown == CountDownQuestion && targets == []
    {
      this.core := core;
      countdown := CountDownQuestion;
      targets := [];
    }

    /** The 1 s spawn interval: one new untapped target at a random spot. */
    method Spawn(id: int, spot: Spot, settingsVisible: bool)
      requires Valid() && Fresh(targets, id)
      modifies this
      ensures Valid()
      ensures targets == if Frozen(settingsVisible) then old(targets) else old(targets) + [Entity(id, spot, false)]
      ensures countdown == old(countdown)
    {
      if core.IsQuizToAnswer() || settingsVisible {
        return;
      }
      AppendFreshKeepsDistinct(targets, Entity(id, spot, false));
      targets := targets + [Entity(id, spot, false)];
    }

    /**
     * The 2 s expiry of target `id`. The spawn-time copy it tests is never
     * marked tapped, so the filter always runs; the miss penalty it guards is
     * never applied (`MissNeverPenalized`), so the session is untouched.
     */
    method Expire(id: int, settingsVisible: bool)
      requires Valid()
      modifies this
      ensures Valid()
      ensures targets == Without(old(targets), id)
      ensures countdown == old(countdown)
    {
      var updated := Without(targets, id);
      MissNeverPenalized(|updated| < |targets|, settingsVisible, core.IsQuizToAnswer());
      WithoutKeepsDistinct(targets, id);
      targets := updated;
    }

    /**
     * The expiry with the intended miss penalty: one `loseLife` when target
     * `id` was still there untapped during play; a target tapped within its
     * last 100 ms costs nothing.
     */
    method ExpireIntended(id: int, settingsVisible: bool)
      requires Valid()
      modifies this, core
      ensures Valid()
      ensures targets == Without(old(targets), id)
      ensures var penalty := MissPenaltyIntended(HasUnresolved(old(targets), id), Ref(settingsVisible), Ref(old(core.IsQuizToAnswer())));
        core.State() == (if penalty then old(core.State()).LoseLife(settingsVisible) else old(core.State())) &&
        (penalty ==> |targets| == |old(targets)| - 1)
      ensures countdown == old(countdown)
    {
      var updated := Without(targets, id);
      MissedTargetIsRemoved(targets, id);
      if MissPenaltyIntended(HasUnresolved(targets, id), Ref(settingsVisible), Ref(core.IsQuizToAnswer())) {
        core.LoseLife(settingsVisible);
      }
      WithoutKeepsDistinct(targets, id);
      targets := updated;
    }

    /** One step of the countdown effect: a one-second interval firing, or, once the count is out, the immediate quiz step that starts a new round. */
    method Tick(settingsVisible: bool)
      requires Valid()
      modifies this, core
      ensures Valid()
      ensures old(Frozen(settingsVisible)) ==> countdown == old(countdown) && core.State() == old(core.State())
      ensures !old(Frozen(settingsVisible)) ==>
        countdown == Round.Next(old(countdown), CountDownQuestion) &&
        core.State() == if Round.FiresQuiz(old(countdown)) then old(core.State()).ShowQuiz() else old(core.State())
      ensures targets == old(targets)
    {
      if core.IsQuizToAnswer() || settingsVisible {
        return;
      }
      if countdown > 0 {
        countdown := countdown - 1;
      } else {
        core.ShowQuiz();
        countdown := CountDownQuestion;
      }
    }

    /** `handleTap(id)`: ignored while frozen; otherwise marks target `id` and earns 0.05 points. */
    method HandleTap(id: int, settingsVisible: bool)
      requires Valid()
      modifies this, core
      ensures Valid()
      ensures old(Frozen(settingsVisible)) ==> targets == old(targets) && core.State() == old(core.State())
      ensures !old(Frozen(settingsVisible)) ==>
        targets == Resolve(old(targets), id) && core.State() == old(core.State()).EarnPoint(Some(TapPoints))
      ensures countdown == old(countdown)
    {
      if core.IsQuizToAnswer() || settingsVisible {
        return;
      }
      ResolveKeepsDistinct(targets, id);
      targets := Resolve(targets, id);
      core.EarnPoint(Some(TapPoints));
    }

    /** The 100 ms timeout after a tap: the tapped target leaves the list. */
    method RemoveTapped(id: int)
      requires Valid()
      modifies this
      ensures Valid()
      ensures targets == Without(old(targets), id)
      ensures countdown == old(countdown)
    {
      WithoutKeepsDistinct(targets, id);
      targets := Without(targets, id);
    }

    /** The callback handed to the core's `restartGame`. */
    method RestartGameCallback()
      requires Valid()
      modifies this
      ensures Valid()
      ensures targets == [] && countdown == CountDownQuestion
    {
      targets := [];
      countdown := CountDownQuestion;
    }

    /** `restartGame`: the core resets the session, then runs this driver's callback once. */
    method RestartGame()
      requires Valid()
      modifies this, core
      ensures Valid()
      ensures core.State() == Core.Initial
      ensures targets == [] && countdown == CountDownQuestion
    {
      core.RestartGame();
      RestartGameCallback();
    }

    /** A correct answer: a new round, one more life and one more point. */
    method OnCorrectAnswer()
      requires Valid()
      modifies this, core
      ensures Valid()
      ensures countdown == CountDownQuestion
      ensures core.State() == old(core.State()).EarnLife(Some(1)).EarnPoint(Some(Core.OnePoint))
      ensures targets == old(targets)
    {
      countdown := CountDownQuestion;
      core.EarnLife(Some(1));
      core.EarnPoint(Some(Core.OnePoint));
    }

    /** A wrong answer: only a new round. */
    method OnWrongAnswer()
      requires Valid()
      modifies this
      ensures Valid()
      ensures countdown == CountDownQuestion
      ensures targets == old(targets)
    {
      countdown := CountDownQuestion;
    }

    /** The core's `onAnswer` bound to this driver's callbacks (the restart branch is never selected). */
    method OnAnswer(isCorrect: bool)
      requires Valid()
      modifies this, core
      ensures Valid()
      ensures var before := old(core.State());
        match before.AnswerBranch(isCorrect)
        case CorrectAnswer =>
          core.State() == before.Answer(isCorrect).EarnLife(Some(1)).EarnPoint(Some(Core.OnePoint)) && countdown == CountDownQuestion
        case WrongAnswer => core.State() == before.Answer(isCorrect) && countdown == CountDownQuestion
        case _ => core.State() == before.Answer(isCorrect) && countdown == old(countdown)
      ensures !core.IsQuizToAnswer()
      ensures targets == old(targets)
    {
      var callback := core.OnAnswer(isCorrect);
      match callback
      case CorrectAnswer => OnCorrectAnswer();
      case WrongAnswer => OnWrongAnswer();
      case NoCallback =>
    }
  }
}
