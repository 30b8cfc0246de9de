# QuizzMobile session engine in Dafny

A model of the session logic of the QuizzMobile arcade/quiz app. A timed mini-game, either dodging obstacles or tapping targets, is interrupted by a trivia question at the end of every round. A correct answer earns a life and a point; collisions cost lives; the settings panel and a pending quiz freeze play.

The app writes all of this as React hooks. With rendering, timers and animation removed, each hook is a small state machine. Each one is modelled as a Dafny class with one method per handler or timer callback. In `Core` and `Legacy`, each method is proved against a pure step function over a snapshot datatype of the hook's state (`Session`, `Game`). In `AvoidObstacle` and `Tapper`, each method's postcondition gives the new fields one by one in terms of the list and countdown functions (`Without`, `Resolve`, `MarkHits`, `CountHits`, `NextSpeed`, `Round.Next`) and the `Session` steps of the core. The lemmas about those functions carry the properties.

- `Core` (`hooks/useGameCore.tsx`): the shared session. It holds lives, points, `isGameOver` and `quizVisible`, plus the derived `isQuizToAnswer`. It offers the guarded `loseLife`, the additive `earnLife`/`earnPoint`, `showQuiz`, `restartGame` and the `onAnswer` dispatcher. `onAnswer` returns the callback it selects, as a `Callback` tag, and the driver then runs that callback.
- `Entities`: the entity list both drivers keep. It covers spawning with a fresh id, the `filter` by id and the `map` that marks one id.
- `Round`: the round countdown every driver runs.
- `ObstacleField`: the obstacle list. It covers the speed ramp `max(speed - 500, 1500)`, the collision test `|playerX - x| < 20 && !isTouching && !hasHit`, and the scan that marks hits.
- `AvoidObstacle` (`app/games/AvoidObstacle/game.tsx`): the obstacle driver. It covers spawn, slide, expiry, ramp, countdown with its 0.05-point trickle, the collision scan, the dodge flag, restart and the answer callbacks.
- `Tapper` (`app/games/Tapper/game.tsx`): the target driver. It covers spawn, expiry, the 4-second countdown, taps, restart and the answer callbacks.
- `Legacy` (`hooks/useGame.tsx`): the older single hook that owns both the session and the obstacle field.
- `Quiz` (`components/QuizzDialog.tsx`): the shuffled answer list, `handleAnswer` and `decodeHtmlEntities`.

Points are integer hundredths: 0.05 is 5 and one point is 100. Positions are `real`, because `width / 4` need not be whole. Ids, positions, the window width, the settings flag and the outcomes of `Math.random` are parameters.

Where the code and the intent stated in its own comments disagree, the model follows the code:

- A wrong answer at game over does not restart the game. The restart branch of `onAnswer` is dead, although the dialog's wrong-answer handler is commented "Restart the game" (`components/QuizzDialog.tsx:43`).
- A missed target never costs a life, although the expiry timeout is commented "Lose life when a target is missed" (`app/games/Tapper/game.tsx:48`).
- A second tap on a target within the 100 ms before it is removed pays 0.05 points again. `handleTap` (`app/games/Tapper/game.tsx:79-86`) has no `tapped` guard, although every other handler resolves an entity once (`Tapper.SecondTapPaysAgain`).
- A wrong answer in the legacy hook calls the external `onCorrectAnswer` callback. `onWrongAnswer` runs `onAnswer`, which calls it whenever lives > 0 (`hooks/useGame.tsx:131-138`, `146-151`); `Legacy.LegacyGame.OnWrongAnswer` reports that call.
- Game over leaves lives at 1 in the model, where each `loseLife` is one atomic step. The app can do otherwise when several hits fall in one scan; see "## Left out".

## Model

| member | source | states |
|---|---|---|
| Core.GameCore.constructor | QuizzGameApp/hooks/useGameCore.tsx:17-21 | the session starts with 3 lives, 0 points, no game over, no quiz, so `isQuizToAnswer` is false |
| Core.InitialIsPlaying | QuizzGameApp/hooks/useGameCore.tsx:17-21 | the initial session has 3 lives and 0 points, and it is neither answering a quiz nor frozen |
| Core.GameCore.LoseLife | QuizzGameApp/hooks/useGameCore.tsx:23-32 | the new session is `Session.LoseLife` of the old one: no change while frozen, otherwise one life less, or game over at the last life |
| Core.LoseLifeWhileFrozen | QuizzGameApp/hooks/useGameCore.tsx:24-25 | any number of `loseLife` calls while a quiz is pending or settings are open leave the session unchanged |
| Core.LoseLifeStep | QuizzGameApp/hooks/useGameCore.tsx:27-31 | an unfrozen `loseLife` removes exactly one life when lives > 1; otherwise it raises game over with lives unchanged; points and quiz flag are untouched |
| Core.LoseLifeSequence | QuizzGameApp/hooks/useGameCore.tsx:23-32 | k unfrozen calls from lives ≥ 1 leave max(lives − k, 1) lives; game over holds iff k ≥ lives; lives never go below 1 |
| Core.ThreeHitsEndTheGame | QuizzGameApp/hooks/useGameCore.tsx:27-31 | three hits from a fresh session end in game over with 1 life, never 0 |
| Core.GameCore.EarnLife | QuizzGameApp/hooks/useGameCore.tsx:33 | lives grow by `n \|\| 1`, with no guard; nothing else changes |
| Core.GameCore.EarnPoint | QuizzGameApp/hooks/useGameCore.tsx:34 | points grow by `n \|\| 1` (in hundredths), with no guard; nothing else changes |
| Core.EarnAddsAmount | QuizzGameApp/hooks/useGameCore.tsx:33-34 | `earnLife`/`earnPoint` add `n`, or one unit when `n` is absent or 0, and change no other field |
| Core.GameCore.RestartGame | QuizzGameApp/hooks/useGameCore.tsx:37-43 | from any state the session becomes 3 lives, 0 points, no game over, no quiz (the drivers then run their callback) |
| Core.GameCore.OnAnswer | QuizzGameApp/hooks/useGameCore.tsx:45-56 | returns the callback the if-chain selects; clears both flags unless the restart branch returned early |
| Core.CorrectAnswerResumes | QuizzGameApp/hooks/useGameCore.tsx:46-55 | a correct answer selects `onCorrectAnswer`, clears both flags and leaves lives and points to the callback |
| Core.WrongAnswerBranch | QuizzGameApp/hooks/useGameCore.tsx:48-55 | a wrong answer selects `onWrongAnswer` iff lives > 0, and then both flags are cleared |
| Core.RestartBranchUnreachable | QuizzGameApp/hooks/useGameCore.tsx:48-51 | the `lives === 1 && isGameOver` restart branch is never selected, for any session and any answer |
| Core.GameOverWrongAnswerResumes | QuizzGameApp/hooks/useGameCore.tsx:48-55 | at game over with 1 life, a wrong answer takes the wrong-answer branch and play resumes with 1 life (no restart) |
| Core.IntendedAnswerBranch | QuizzGameApp/hooks/useGameCore.tsx:46-51 | with the restart test first, a wrong answer at game over restarts; outside game over the branch is unchanged; correct answers are unaffected |
| Core.CorrectAnswerScenario | QuizzGameApp/hooks/useGameCore.tsx:46-55 | from 1 life and 2 points at game over, a correct answer plus its `earnLife(1); earnPoint(1)` callback gives 2 lives, 3 points, no game over |
| Core.GameCore.ShowQuiz | QuizzGameApp/hooks/useGameCore.tsx:58 | the quiz flag is raised, so `isQuizToAnswer` holds; lives and points are unchanged |
| Core.ShowQuizFreezes | QuizzGameApp/hooks/useGameCore.tsx:58 | `showQuiz` makes `isQuizToAnswer` true and leaves lives and points as they were |
| Core.RunKeepsALife | QuizzGameApp/hooks/useGameCore.tsx:23-58 | every sequence of session operations (with non-negative life grants) from a session with ≥ 1 life keeps ≥ 1 life |
| Core.WrongAnswerAlwaysCallsOnWrong | QuizzGameApp/hooks/useGameCore.tsx:48-51 | in every reachable session a wrong answer selects `onWrongAnswer`: never the restart, never no callback |
| Entities.Without | QuizzGameApp/app/games/Tapper/game.tsx:46 | the filter keeps only elements of the list, none of them with the id, and keeps every other element |
| Entities.WithoutFresh | QuizzGameApp/app/games/AvoidObstacle/game.tsx:41-43 | filtering an id nobody carries leaves the list unchanged |
| Entities.WithoutAt | QuizzGameApp/app/games/AvoidObstacle/game.tsx:41-43 | with distinct ids, the filter removes exactly the one entity with the id and keeps the others in order |
| Entities.Resolve | QuizzGameApp/app/games/Tapper/game.tsx:82-84 | the map keeps length, ids and positions, and sets the flag on exactly the entities with the id |
| Entities.WithoutAfterResolve | QuizzGameApp/app/games/Tapper/game.tsx:82-89 | removing a target after tapping it leaves the same list as removing it untapped |
| Round.Next | QuizzGameApp/app/games/AvoidObstacle/game.tsx:64-76 | an unfrozen tick never makes a non-negative countdown negative, strictly decreases a positive one, and resets to the round length when it opens the quiz |
| Round.FullRound | QuizzGameApp/app/games/AvoidObstacle/game.tsx:64-76 | from countdown c, c + 1 unfrozen ticks open the quiz exactly once, pay c trickles and end at the reset value |
| Round.NoQuizMidRound | QuizzGameApp/app/games/Tapper/game.tsx:65-75 | the first n ≤ c ticks only count down: no quiz, countdown c − n |
| ObstacleField.NextSpeed | QuizzGameApp/app/games/AvoidObstacle/game.tsx:55 | the ramp never goes below 1500 ms, never speeds up past the floor, strictly shortens above it, and lands on speed − 500 or 1500 |
| ObstacleField.SpeedRamp | QuizzGameApp/app/games/AvoidObstacle/game.tsx:20-57 | after n steps from 4000 the speed is max(4000 − 500n, 1500), always within [1500, 4000] |
| ObstacleField.MarkHitsPointwise | QuizzGameApp/app/games/AvoidObstacle/game.tsx:84-94 | the scan keeps length, order, ids and positions and sets `hasHit` on exactly the colliding obstacles |
| ObstacleField.NoHitsIff | QuizzGameApp/app/games/AvoidObstacle/game.tsx:88-89 | the scan calls `loseLife` at all iff some obstacle is within range, the player is not dodging and it was not hit before |
| ObstacleField.HitsAreMarked | QuizzGameApp/app/games/AvoidObstacle/game.tsx:88-90 | the number of `loseLife` calls equals the number of obstacles whose `hasHit` flips, so each costs at most one life |
| ObstacleField.ScanIsIdempotent | QuizzGameApp/app/games/AvoidObstacle/game.tsx:88 | scanning again with unchanged positions changes no obstacle and calls `loseLife` no more |
| AvoidObstacle.ObstacleGame.constructor | QuizzGameApp/app/games/AvoidObstacle/game.tsx:13-20 | countdown 5, not dodging, no obstacles, speed 4000, player at width / 4 |
| AvoidObstacle.ObstacleGame.Spawn | QuizzGameApp/app/games/AvoidObstacle/game.tsx:26-34 | unless frozen, exactly one obstacle with the fresh id is appended at x = width with `hasHit` false; ids stay distinct |
| AvoidObstacle.ObstacleGame.Animate | QuizzGameApp/app/games/AvoidObstacle/game.tsx:36-39 | only the x position of the obstacle with that id changes |
| AvoidObstacle.ObstacleGame.Expire | QuizzGameApp/app/games/AvoidObstacle/game.tsx:40-44 | the end of the slide removes only the obstacle with that id |
| AvoidObstacle.ObstacleGame.SpeedUp | QuizzGameApp/app/games/AvoidObstacle/game.tsx:53-57 | unless frozen the speed takes one ramp step; it never increases and stays in [1500, 4000] |
| AvoidObstacle.ObstacleGame.Tick | QuizzGameApp/app/games/AvoidObstacle/game.tsx:62-78 | while frozen nothing happens; otherwise an interval firing (0.05 points and one second less), or at 0 the effect's immediate step: `showQuiz` once and countdown 20 |
| AvoidObstacle.ObstacleGame.CheckCollision | QuizzGameApp/app/games/AvoidObstacle/game.tsx:82-95 | no-op while a quiz is pending; otherwise the list becomes `MarkHits` of it and the session takes one `loseLife` per colliding obstacle |
| AvoidObstacle.ObstacleGame.TouchStart | QuizzGameApp/app/games/AvoidObstacle/game.tsx:100-106 | a press sets the dodge flag and changes nothing else |
| AvoidObstacle.ObstacleGame.TouchEnd | QuizzGameApp/app/games/AvoidObstacle/game.tsx:108-110 | a release (or the 500 ms timeout) clears the dodge flag |
| AvoidObstacle.ObstacleGame.RestartGameCallBack | QuizzGameApp/app/games/AvoidObstacle/game.tsx:111-115 | the obstacle list is emptied, speed is 4000 and the countdown 20 |
| AvoidObstacle.ObstacleGame.RestartGame | QuizzGameApp/app/games/AvoidObstacle/game.tsx:117-119 | the session is reset and the driver callback runs once after it: no obstacles, speed 4000, countdown 20 |
| AvoidObstacle.ObstacleGame.OnCorrectAnswer | QuizzGameApp/app/games/AvoidObstacle/game.tsx:120-127 | countdown 20, one more life and one more point |
| AvoidObstacle.ObstacleGame.OnWrongAnswer | QuizzGameApp/app/games/AvoidObstacle/game.tsx:128-130 | only the countdown changes, to 20 |
| AvoidObstacle.ObstacleGame.OnAnswer | QuizzGameApp/app/games/AvoidObstacle/game.tsx:117-130 | `onAnswer` with this driver's callbacks runs exactly the selected callback once, and the quiz is closed afterwards |
| Tapper.TapperGame.constructor | QuizzGameApp/app/games/Tapper/game.tsx:11-15 | countdown 4, no targets |
| Tapper.TapperGame.Spawn | QuizzGameApp/app/games/Tapper/game.tsx:30-40 | unless frozen, exactly one untapped target with the fresh id is appended; ids stay distinct |
| Tapper.TapperGame.Expire | QuizzGameApp/app/games/Tapper/game.tsx:42-56 | the expiry removes only the target with that id and never touches the session |
| Tapper.MissNeverPenalized | QuizzGameApp/app/games/Tapper/game.tsx:49-50 | the miss-penalty test as written is false for every input, because it negates the always-truthy ref object |
| Tapper.MissPenaltyWhenRunning | QuizzGameApp/app/games/Tapper/game.tsx:44-50 | testing the ref's value instead penalizes iff an untapped target went while not frozen (where, by `Tapper.MissNeverPenalized`, the code never does) |
| Tapper.MissedTargetIsRemoved | QuizzGameApp/app/games/Tapper/game.tsx:46-49 | with distinct ids, a target still there untapped is removed by the expiry's filter, so the length test of the timeout holds |
| Tapper.TappedTargetIsNotMissed | QuizzGameApp/app/games/Tapper/game.tsx:44-50 | after a tap no untapped target with that id is left, so the intended penalty never charges a tapped target |
| Tapper.TapperGame.ExpireIntended | QuizzGameApp/app/games/Tapper/game.tsx:43-56 | the expiry with the intended test removes only that target and takes one `loseLife` iff it was still there untapped and play was running; the list then shrinks by one |
| Tapper.TapperGame.Tick | QuizzGameApp/app/games/Tapper/game.tsx:63-77 | while frozen nothing happens; otherwise an interval firing (one second less), or at 0 the effect's immediate step: `showQuiz` once and countdown 4; no points |
| Tapper.TapperGame.HandleTap | QuizzGameApp/app/games/Tapper/game.tsx:79-86 | while frozen nothing changes; otherwise only targets with that id are marked tapped and points grow by 0.05 |
| Tapper.SecondTapPaysAgain | QuizzGameApp/app/games/Tapper/game.tsx:79-86 | after a first tap play is still running, a second tap on the same target changes no target, and the two taps together pay 0.10 points |
| Tapper.TapMarksOnlyThatTarget | QuizzGameApp/app/games/Tapper/game.tsx:82-84 | a tap leaves every other target as it was, keeps length and order, and marks the matching one |
| Tapper.TapperGame.RemoveTapped | QuizzGameApp/app/games/Tapper/game.tsx:87-89 | 100 ms after a tap only the target with that id is removed |
| Tapper.TapperGame.RestartGameCallback | QuizzGameApp/app/games/Tapper/game.tsx:92-95 | no targets, countdown 4 |
| Tapper.TapperGame.RestartGame | QuizzGameApp/app/games/Tapper/game.tsx:97 | the session is reset and the driver callback runs once after it |
| Tapper.TapperGame.OnCorrectAnswer | QuizzGameApp/app/games/Tapper/game.tsx:99-107 | countdown 4, one more life and one more point |
| Tapper.TapperGame.OnWrongAnswer | QuizzGameApp/app/games/Tapper/game.tsx:109-111 | only the countdown changes, to 4 |
| Tapper.TapperGame.OnAnswer | QuizzGameApp/app/games/Tapper/game.tsx:97-111 | `onAnswer` with this driver's callbacks runs exactly the selected callback once, and the quiz is closed afterwards |
| Legacy.LegacyGame.constructor | QuizzGameApp/hooks/useGame.tsx:15-25 | the hook starts in the initial state |
| Legacy.InitialState | QuizzGameApp/hooks/useGame.tsx:15-25 | 3 lives, 0 points, speed 4000, countdown 5, no quiz or game over, so `displayQuiz` is false |
| Legacy.LegacyGame.Spawn | QuizzGameApp/hooks/useGame.tsx:26-37 | unless frozen one fresh obstacle is appended at x = width |
| Legacy.LegacyGame.Animate | QuizzGameApp/hooks/useGame.tsx:38-42 | only the x position of that obstacle changes |
| Legacy.LegacyGame.Expire | QuizzGameApp/hooks/useGame.tsx:42-46 | only the obstacle with that id is removed |
| Legacy.LegacyGame.SpeedUp | QuizzGameApp/hooks/useGame.tsx:53-59 | unless frozen the speed takes one ramp step |
| Legacy.LegacyGame.Tick | QuizzGameApp/hooks/useGame.tsx:64-80 | the state becomes `Game.Tick` of the old one |
| Legacy.TicksFollowRound | QuizzGameApp/hooks/useGame.tsx:64-80 | up to the quiz, n unfrozen countdown steps follow the shared round countdown: one 0.05 trickle per counting second, quiz shown iff the round fired, countdown `Round.After` |
| Legacy.LegacyFullRound | QuizzGameApp/hooks/useGame.tsx:64-80 | from countdown c, c counting seconds pay c × 0.05 points, then the effect's immediate quiz step shows the quiz once with a fresh 20 s count (c + 1 steps, c seconds) |
| Legacy.TickStep | QuizzGameApp/hooks/useGame.tsx:66-78 | unfrozen with countdown > 0: points + 0.05 (the rounding is exact in hundredths) and countdown − 1; at 0: quiz shown and countdown 20 |
| Legacy.LegacyGame.LoseLife | QuizzGameApp/hooks/useGame.tsx:114-120 | the state becomes `Game.LoseLife` of the old one |
| Legacy.LoseLifeUnguarded | QuizzGameApp/hooks/useGame.tsx:114-120 | with no pause or quiz guard: one life less when lives > 1, otherwise game over with lives unchanged |
| Legacy.LoseLifeTimesKeepsALife | QuizzGameApp/hooks/useGame.tsx:114-120 | any number of `loseLife` calls from ≥ 1 life keeps ≥ 1 life and changes only lives and game over |
| Legacy.LegacyGame.CheckCollision | QuizzGameApp/hooks/useGame.tsx:82-100 | no-op while the quiz is shown; otherwise hits are marked and one `loseLife` runs per colliding obstacle |
| Legacy.LegacyGame.TouchStart | QuizzGameApp/hooks/useGame.tsx:102-108 | the dodge flag is set |
| Legacy.LegacyGame.TouchEnd | QuizzGameApp/hooks/useGame.tsx:110-112 | the dodge flag is cleared |
| Legacy.LegacyGame.RestartGame | QuizzGameApp/hooks/useGame.tsx:122-130 | 3 lives, no game over, no obstacles, 0 points, speed 4000, no quiz, countdown 20 |
| Legacy.LegacyGame.OnAnswer | QuizzGameApp/hooks/useGame.tsx:131-138 | acts only when lives > 0: flags cleared, countdown 20, and `onCorrectAnswer` called once (reported by the result) |
| Legacy.AnswerOnlyWithLives | QuizzGameApp/hooks/useGame.tsx:131-138 | with lives ≤ 0 `onAnswer` changes nothing; with lives > 0 it closes the quiz and sets countdown 20; lives and points are untouched |
| Legacy.LegacyGame.OnCorrectAnswerHandler | QuizzGameApp/hooks/useGame.tsx:140-144 | one life and one point are added, then `onAnswer` runs |
| Legacy.CorrectAnswerRewards | QuizzGameApp/hooks/useGame.tsx:140-144 | a correct answer adds exactly one life and one point |
| Legacy.LegacyGame.OnWrongAnswer | QuizzGameApp/hooks/useGame.tsx:146-151 | `onAnswer` runs, calling the external `onCorrectAnswer` iff lives > 0 (reported by the result), then a restart only if lives are negative |
| Legacy.ApplyKeepsInv | QuizzGameApp/hooks/useGame.tsx:53-151 | every timer callback and handler keeps lives ≥ 1, speed within [1500, 4000] and a non-negative countdown |
| Legacy.RunKeepsInv | QuizzGameApp/hooks/useGame.tsx:53-151 | every sequence of callbacks and handlers from a state satisfying the invariant keeps it |
| Legacy.WrongAnswerNeverRestarts | QuizzGameApp/hooks/useGame.tsx:146-151 | in every reachable state `lives < 0` is false, so `onWrongAnswer` never restarts and `onAnswer` always acts; the speed stays within [1500, 4000] |
| Quiz.Shuffle | QuizzGameApp/components/QuizzDialog.tsx:29 | the random-comparator sort returns a permutation: same length, same multiset |
| Quiz.AnswerListIsPermutation | QuizzGameApp/components/QuizzDialog.tsx:29 | the answer list has the multiset of the incorrect answers plus the correct one, length \|incorrect\| + 1, and contains the correct answer |
| Quiz.QuizDialog.constructor | QuizzGameApp/components/QuizzDialog.tsx:18-20 | no question, no answers, empty correct answer |
| Quiz.QuizDialog.OnTriviaLoaded | QuizzGameApp/components/QuizzDialog.tsx:26-33 | with a non-empty result the first question, its shuffled answers and its correct answer are stored, and that answer is among the buttons; an empty result changes nothing |
| Quiz.QuizDialog.HandleAnswer | QuizzGameApp/components/QuizzDialog.tsx:39-45 | exactly one callback: `onCorrectAnswer` iff the answer equals the correct answer, otherwise `onWrongAnswer` |
| Quiz.ReplaceAll | QuizzGameApp/components/QuizzDialog.tsx:70-78 | a global replace with a replacement no longer than the pattern never lengthens the text; text that is exactly the pattern becomes the replacement |
| Quiz.ReplaceAllAbsent | QuizzGameApp/components/QuizzDialog.tsx:70-78 | text without the pattern's first character is returned unchanged |
| Quiz.DecodeHtmlEntities | QuizzGameApp/components/QuizzDialog.tsx:68-79 | the decoded text is never longer than the input |
| Quiz.DecodeWithoutAmpersand | QuizzGameApp/components/QuizzDialog.tsx:68-79 | text without `&` decodes to itself |
| Quiz.DecodesEachEntity | QuizzGameApp/components/QuizzDialog.tsx:70-78 | `&quot;`, `&ldquo;`, `&rdquo;` decode to `"`; `&amp;` to `&`; `&lt;` to `<`; `&gt;` to `>`; `&#039;`, `&rsquo;`, `&lsquo;` to `'` |
| Quiz.DecodeIsSinglePassInOrder | QuizzGameApp/components/QuizzDialog.tsx:70-78 | each pass runs once, in order: `&amp;quot;` decodes to `&quot;` while `&amp;lt;` decodes to `<` |

## Findings

| source | as written | input that shows it | evidently intended | confidence | as-written member | corrected member |
|---|---|---|---|---|---|---|
| QuizzGameApp/hooks/useGameCore.tsx:48-51 | `lives > 0` is tested before `lives === 1 && isGameOver`, so the restart branch is dead | lives 1, game over, wrong answer: `onWrongAnswer` runs, game over is cleared and play resumes with 1 life | a wrong answer to the game-over prompt restarts the game (restart test first) | medium, not executed | Core.GameOverWrongAnswerResumes | Core.IntendedAnswerBranch |
| QuizzGameApp/app/games/Tapper/game.tsx:49 | the miss penalty tests `!isQuizToAnswerRef`, the ref object, which is always truthy | a target expires untapped with settings closed and no quiz: no `loseLife` | `!isQuizToAnswerRef.current`: a target that leaves untapped costs a life during play; a tapped one does not | high, not executed | Tapper.MissNeverPenalized | Tapper.TapperGame.ExpireIntended |

The drivers keep the as-written behaviour in both cases, so the model matches the code. The corrected members sit beside them: `Core.Session.AnswerBranchIntended` with `Core.IntendedAnswerBranch`, and `Tapper.MissPenaltyIntended` with `Tapper.TapperGame.ExpireIntended` and `Tapper.MissPenaltyWhenRunning`.

## Left out

- Rendering: the JSX, the `StyleSheet` objects, the `TapperGame` component and the modal body of `QuizzDialog`.
- The settings dialogs, the emoji preference hooks and the re-exporting index files. They hold UI and string setters with no session logic.
- Timer scheduling. `setInterval`/`setTimeout`, `clearInterval` and the effect dependency arrays are not modelled. Each callback is one method, and a timer that the hook only installs while unfrozen becomes a frozen check at the moment the callback runs. One effect of this: the obstacle spawn effect omits `settingsVisible` from its dependency list, so in the app spawning can go on for a while after the settings panel opens. The model does not capture that.
- React batching and stale closures. Each callback is one atomic step on the current state.
- Several hits in one collision scan. In the app, every `loseLife` of one scan reads the same rendered `lives`. Take k hits in one scan with k ≥ lives ≥ 2: each call queues a decrement, so lives fall to lives − k ≤ 0 and game over is never raised. The legacy `lives < 0` restart would then be reachable. The model instead applies the calls one after another, ending at 1 life and game over. So Core.LoseLifeSequence, Core.RunKeepsALife, Legacy.LoseLifeTimesKeepsALife, Legacy.RunKeepsInv and Legacy.WrongAnswerNeverRestarts hold for the app only while a scan sees at most one hit. That is the case when obstacles spawn 2 s apart: an obstacle crosses the 40 px hit window in a small fraction of its 1.5 s to 4 s slide, so no two are in it at once. The model does not prove that spacing argument, because it leaves out timing and motion.
- Stale `lives` in the legacy answer handler. The legacy `onCorrectAnswerHandler` runs `onAnswer` against the `lives` value from before its own increment. In every reachable state (lives ≥ 1) this gives the same result.
- Order of `onAnswer`. `Core.GameCore.OnAnswer` clears the flags before the driver runs the selected callback; the hook clears them after. The callbacks touch only lives, points and the countdown, so the two orders give the same state.
- Animation. `Animated.timing` and `left._value` are replaced by `Animate(id, x)`, with x supplied by the environment.
- Randomness. `Math.random` ids, target spots and the random sort comparator are parameters. Spawn requires a fresh id.
- Quiz.Shuffle: it states only that the order is some permutation, not which one the random comparator produces.
- Floating point. Points are exact hundredths, so `Math.round((p + 0.05) * 100) / 100` is exactly `p + 5`. The newer drivers call `earnPoint(0.05)` without rounding (`app/games/AvoidObstacle/game.tsx:67`, `app/games/Tapper/game.tsx:86`), so the app's `points` drift in binary floating point (0.1 + 0.05 is not 0.15); the model's exact sums do not show that drift.
- The countdown effect's zero step. When the count reaches 0, the effect's else-branch opens the quiz as soon as the re-render sees 0, with no further second. The model writes that branch as one more `Tick`, so a round from c lasts c seconds in the app and c + 1 `Tick` steps in the model. Between the c-th step and the quiz step the model also lets other callbacks run at countdown 0 (a hit, a tap, an expiry), which the app cannot do.
- `Dimensions.get('window')`. The width is a constructor parameter; the height only bounds target spots, which are any `Spot`.
- Network. The trivia `fetch` and its promise chain are replaced by `OnTriviaLoaded(results, picks)`, and the `console.error` on failure is not modelled.
- The dialog's callbacks. How `app/(tabs)/explore.tsx` wires `onAnswer` into the dialog is not part of this model. `HandleAnswer` reports which callback runs, and the drivers' `OnAnswer` takes the correctness flag.
- The `newTarget.tapped` test in the Tapper expiry. It reads the spawn-time copy, which is never marked, so the model always runs the filter.
- The 500 ms dodge timer and its `clearTimeout`. The timeout is the same step as `TouchEnd`.
