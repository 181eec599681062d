# Triviamo quiz engine — a Dafny model

Triviamo is a desktop trivia game written in Java with Swing (`TriviaCard.java`).
This project models its quiz-engine core without the widgets:

- **The trivia card** (`TriviaCard`). A card has a fixed question, answer, option list, difficulty and category.
  Its only mutable state is `isAnswered` and `userAnswer`. `submitAnswer` succeeds once and compares answers ignoring case.
  `reset` clears the answer state. The difficulty fixes the points: Easy 100, Medium 200, Hard 300, Expert 500.
- **The game session** (`TriviaGameGUI` without its Swing calls). The state is the card list, `currentCardIndex`,
  `totalScore` and the countdown `timeLeft`. The transitions are answering (`checkAnswer`), advancing
  (`showNextQuestion`), the one-second timer task, `timeUp`, and the final-score dialog with its replay choice.
- **The end-of-game summary**: the accuracy percentage, the grade band and the per-category breakdown.

Every card and game state is an immutable datatype, and every transition is a pure function.
Where the Java code throws, the model returns a `Result` failure.
The `Phase` of a game records which buttons the window has enabled:
- `Asking`: the option buttons are enabled.
- `Revealed`: the next button is visible.
- `Summary`: the final-score dialog is open.
- `Closed`: the window was disposed.

An event the window could not deliver in a phase (a click on a disabled button) fails with `NotAccepting`.
An event whose handler throws leaves the game unchanged (`Session.Run`).

The modules are:
- `Wrappers`: `Option` and `Result`.
- `Text`: ASCII case folding.
- `Sums`: sums over sequences.
- `Shuffling`: the list shuffle.
- `Cards`: the trivia card.
- `Session`: the game state and its transitions.
- `Play`: properties of whole event sequences.
- `Summary`: the final report.
- `Scenarios`: a concrete round over two cards of the sample deck.

Behaviour of the code that the model keeps and proves:

- `timeLeft` is set to 30 only when the timer starts: at construction and at replay.
  Advancing to the next question neither resets nor restarts it.
  So the 30 seconds are shared by the questions until the first time-up.
  Time-up cancels the timer for the rest of the round (`Play.TimerNeverRewound`).
- The timer keeps running after a question is answered.
  A time-up while the next button is showing only cancels the timer.
- The timer task first counts down and only calls `timeUp` when it runs with `timeLeft` already 0.
  So a freshly started timer times the question out on its 31st run, not its 30th (`Play.FreshTimerTimesOutOnThirtyFirstTick`).
- Replay does not reset the cards. A card answered in the previous round refuses every answer in the next one.
  After a round in which every question was answered, replay can never score again (`Play.ReplayAfterFullRoundScoresNothing`).
  For a deck of two or more cards, once the first question times out, the game is stuck on the second one for good (`Play.ReplayedFullRoundGetsStuck`).
- The per-category "scored" map is created empty and never written, so every category accuracy is 0 (`Summary.FinalReport`).
- The accuracy percentage measures the score against one Easy card per question.
  A perfect round of harder cards therefore scores above 100 percent (`Summary.PerfectRoundPercentage`).

## Model

| member | source | states |
|---|---|---|
| `Cards.Difficulty.Points` | TriviaCard.java:25-41 | each difficulty is worth a whole number of hundreds between 100 and 500, and exactly 100 for Easy |
| `Text.Lower` | TriviaCard.java:86 | lower-casing keeps the length and folds each character on its own, changing only the upper-case ASCII letters, each into the same letter in lower case, so no upper-case ASCII letter remains |
| `Cards.NewCard` | TriviaCard.java:49-58 | a new card is unanswered, has no stored answer, and is worth its difficulty's points |
| `Cards.Submit` | TriviaCard.java:74-87 | a submission fails exactly when the card is already answered; otherwise the card becomes answered and stores the submitted text, and the result is true exactly when that text is non-null and equals the card's answer up to the case of its letters |
| `Cards.Reset` | TriviaCard.java:104-107 | reset leaves the card unanswered with no stored answer and changes nothing else |
| `Cards.SubmitOnlyOnce` | TriviaCard.java:75-77 | after one successful submission, any second submission fails |
| `Cards.ResetIdempotent` | TriviaCard.java:104-107 | resetting twice gives the same card as resetting once |
| `Cards.SubmitAfterResetIsFresh` | TriviaCard.java:104-107 | a reset card equals the card the constructor would build, so one submission after reset behaves as on a new card |
| `Cards.AnyCasingOfAnswerAccepted` | TriviaCard.java:85-87 | the card's answer is accepted as written, upper-cased or lower-cased |
| `Text.EqualsIgnoreCaseIffRecased` | TriviaCard.java:86 | comparing lower-cased texts holds exactly when the texts differ only in the case of their letters |
| `Text.CasingPreservesEquality` | TriviaCard.java:86 | upper-casing or lower-casing a text keeps it equal to itself ignoring case |
| `Shuffling.Shuffle` | TriviaCard.java:129 | the shuffled deck has the same cards, none duplicated or dropped |
| `Shuffling.ShuffleKeepsMembers` | TriviaCard.java:449 | a card is in the reshuffled deck exactly when it was in the deck before |
| `Session.NewGame` | TriviaCard.java:127-132 | an empty deck fails on showing the first card; otherwise the game starts on a permutation of the deck at index 0 with score 0, the timer running from 30, and the invariant established |
| `Session.StartTimer` | TriviaCard.java:237-242 | starting the timer sets the countdown to 30 and running, and changes nothing else |
| `Session.Resolve` | TriviaCard.java:273-277 | after a resolution the next button shows exactly when the index is before the last card; on the last card the final score shows and the timer is cancelled |
| `Session.Answer` | TriviaCard.java:359-389 | answering is refused when the options are disabled or the current card is answered; otherwise only the current card changes, the score grows by exactly that card's points when the text matches its answer ignoring case and is unchanged otherwise, the countdown is untouched, and the game finishes exactly when the index is the last one |
| `Session.TimeUp` | TriviaCard.java:261-278 | time-up cancels the timer, leaves the cards and score untouched, records an open question as timed out, and finishes the game exactly on the last card |
| `Session.Tick` | TriviaCard.java:243-258 | a timer run with time left takes one second off and changes nothing else; at 0 it calls time-up, which cancels the timer; a cancelled timer changes nothing |
| `Session.Advance` | TriviaCard.java:391-394 | advancing is accepted only while the next button shows; it increments the index by exactly one and keeps the countdown, timer, score and cards |
| `Session.GameOver` | TriviaCard.java:437-455 | declining closes the game unchanged; playing again sets index and score to 0, deals the reshuffled cards without resetting them, and restarts the timer from 30 |
| `Session.Step` | TriviaCard.java:204-218 | every accepted button or timer event keeps the invariant: the index is on a card, the phase agrees with the index, and the score is the points of this round's correct answers |
| `Session.Run` | TriviaCard.java:204-218 | the model's event driver: events from the option buttons, the next button, the timer and the dialog are applied in order, an event whose handler throws leaves the game unchanged, and every sequence of events keeps the game invariant |
| `Play.ScoreWithinDeck` | TriviaCard.java:378-380 | in every valid state the score equals the points of the cards answered correctly this round and is at most the deck's total points |
| `Play.ReachableStatesKeepInvariant` | TriviaCard.java:378-380 | after any events from a new game, the index is on a card and the score is the points of this round's correct answers, at most the dealt deck's total |
| `Play.StepKeepsDeckPoints` | TriviaCard.java:55 | no event changes the total points of the deck |
| `Play.TicksCountDown` | TriviaCard.java:246-247 | while time is left, each timer run takes one second off and changes nothing else |
| `Play.TimeUpAfterCountdown` | TriviaCard.java:246-262 | the timer run after the countdown reaches 0 ends the open question as timed out, cancels the timer, and submits nothing |
| `Play.FreshTimerTimesOutOnThirtyFirstTick` | TriviaCard.java:241-258 | from a fresh start, 30 timer runs leave the question open at 0 seconds and the 31st times it out |
| `Play.TimerRunsOnAfterAnswer` | TriviaCard.java:384-386 | after an answer that shows the next button, the timer still runs and the next timer event takes a second off |
| `Play.TimerNeverRewound` | TriviaCard.java:391-394 | without a replay the time left never increases and a cancelled timer stays cancelled |
| `Play.ReplayKeepsAnswerState` | TriviaCard.java:445-451 | replay keeps the very same cards with their answer state, so an answered first card refuses every answer |
| `Play.FullRoundAnswersEveryCard` | TriviaCard.java:79-80 | a round in which no question timed out leaves every card answered |
| `Play.NothingScoredOnceAllAnswered` | TriviaCard.java:75-77 | once every card is answered and the score is 0, no sequence of events scores a point |
| `Play.ReplayAfterFullRoundScoresNothing` | TriviaCard.java:445-451 | after replaying a round in which every question was answered, the score stays 0 |
| `Play.StuckWhenAnsweredAndUntimed` | TriviaCard.java:261-262 | a shown question whose card is answered, with the timer cancelled, accepts no event |
| `Play.ReplayedFullRoundGetsStuck` | TriviaCard.java:445-451 | after replaying a fully answered round, one time-up and one advance leave the game stuck for good |
| `Summary.ReachesIffPercentage` | TriviaCard.java:398 | the integer cross-multiplication decides exactly the comparison of the real-valued percentage with a threshold |
| `Summary.Percentage` | TriviaCard.java:398 | the accuracy is the non-negative real whose product with the question count times the Easy points equals the score times 100; it is 0 exactly when the score is 0 |
| `Summary.GradeFor` | TriviaCard.java:424-435 | the grade is Outstanding at 90 percent or more, Excellent from 80 below 90, Great from 70 below 80, Good effort from 60 below 70, and Keep practicing below 60 |
| `Summary.GradeMonotone` | TriviaCard.java:424-435 | a higher score never earns a lower grade |
| `Summary.PerfectRoundPercentage` | TriviaCard.java:398 | a perfect round scores at least 100 percent and exactly 100 only when every card is Easy, and grades Outstanding |
| `Summary.CategoryTotals` | TriviaCard.java:410-415 | the totals have one entry per category of the deck, holding the sum of that category's card points |
| `Summary.CategoryPointsIgnoreOrder` | TriviaCard.java:413-415 | the same cards in another order have the same categories, each holding the same points |
| `Summary.CategoryTotalsIgnoreOrder` | TriviaCard.java:413-415 | the same cards in another order give the same category totals map |
| `Summary.Accuracy` | TriviaCard.java:420 | a category's accuracy is the scored points times 100 over the category's points (the result times the total equals scored × 100); it is non-negative and is 0 exactly when nothing was scored in it |
| `Summary.Breakdown` | TriviaCard.java:417-422 | each category of the deck reports its scored points times 100 over its total points |
| `Summary.FinalReport` | TriviaCard.java:396-435 | the report carries the score, the question count, the percentage and its grade, and every category of the deck at 0 percent |
| `Scenarios.CaseInsensitiveRound` | TriviaCard.java:359-389 | on two cards dealt in order, answering "paris" to Paris and "Fe" to Au finishes with 100 points, 50 percent and the lowest grade; the lower-case "paris" is more than the window can send, since its buttons carry the options as written ("Paris"), so it exercises the card's case folding alone |

## Left out

- The Swing interface is not modelled: layout, `RoundedBorder`, `ButtonHoverEffect`, button colouring and enabling, labels and the progress bar. Only which events each phase accepts is modelled.
- The `JOptionPane` dialog is a boolean input: play again or not.
- Timer threading is not modelled. This covers `java.util.Timer`, `scheduleAtFixedRate` and `SwingUtilities.invokeLater`. A timer run is one discrete event, applied atomically.
  Races are not modelled either. One is a click that arrives between a timer run posting `timeUp` and `timeUp` running. Another is a second post of `timeUp` before the first one cancels the timer.
- A cancelled timer delivers no runs. In the model a tick on a cancelled timer changes nothing (`Session.Tick`).
- The shuffle of the displayed options in `showQuestion` is not modelled. `Session.Answer` takes the clicked text as any string, not only one of the card's options.
  A card with fewer than four options would make `showQuestion` fail. That failure is not modelled.
- `Shuffling.Shuffle`: the random draws are a parameter and every draw is reduced into its range. The contract states only that the result is a permutation. It does not claim that every permutation is reachable or that they are equally likely.
- Lower-casing folds ASCII letters only. Java's `toLowerCase` also folds other letters and depends on the locale.
- Integers are unbounded. Java's `int` score and the products `size * 100` would overflow only for decks of millions of cards.
- The percentages are exact reals. The `double` rounding in Java does not change a threshold comparison for any realistic deck size.
- The text formatting is not modelled: `getCardInfo`, the `String.format` output, `%.1f` rendering and the grade strings with their emoji. A grade is an enumeration.
- A card built with a null answer would make the comparison throw. Answers are modelled as non-null text.
- The `Color` field of `Difficulty` and the accessors `getQuestion`, `getOptions` and `getPoints` are plain reads and are not modelled.
- The sample deck in `main` is not modelled. Two of its cards appear only as test data in `Scenarios`.
