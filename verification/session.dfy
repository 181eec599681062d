/**
 * The game-session logic of the quiz window with every widget call removed:
 * the card list, the current index, the running score and the shared countdown.
 *
 * The phase records which player events the window accepts at that moment:
 *   Asking   - the option buttons are enabled (a question is shown);
 *   Revealed - the options are disabled and the next button is visible;
 *   Summary  - the final-score dialog is open and the timer is cancelled;
 *   Closed   - the player declined to play again and the window is disposed.
 */
module Session {
  import opened Wrappers
  import opened Text
  import opened Shuffling
  import opened Cards

  /** Seconds on the countdown each time the timer is started. */
  const TimeBudget: nat := 30

  datatype Phase = Asking | Revealed | Summary | Closed

  /** How the question at one position of the deck was resolved in the current round. */
  datatype Outcome = Correct | Wrong | TimedOut

  datatype GameError =
    | NoQuestion       // the deck is empty: showing the first card is out of range
    | NotAccepting     // the event's button is disabled or hidden in this phase
    | CardAlreadyAnswered  // the current card refused a second submission

  datatype Game = Game(
    cards: seq<Card>,
    index: nat,
    score: nat,
    timeLeft: nat,
    timerRunning: bool,
    phase: Phase,
    outcomes: seq<Outcome>)

  /** The points scored by the positions resolved as `Correct`. */
  function ScoredPoints(cards: seq<Card>, outcomes: seq<Outcome>): nat
    requires |outcomes| <= |cards|
    decreases |outcomes|
  {
    if |outcomes| == 0 then 0
    else
      var n := |outcomes| - 1;
      ScoredPoints(cards, outcomes[..n]) + (if outcomes[n] == Correct then cards[n].Points() else 0)
  }

  /** A recorded outcome agrees with the answer state of the card it resolved. */
  predicate Consistent(o: Outcome, c: Card) {
    match o
    case Correct => c.isAnswered && c.IsCorrect()
    case Wrong => c.isAnswered && !c.IsCorrect()
    case TimedOut => true
  }

  /** The invariant every reachable game state keeps. */
  predicate Valid(g: Game) {
    && 0 < |g.cards|
    && g.index < |g.cards|
    && g.timeLeft <= TimeBudget
    && (g.phase == Revealed ==> g.index < |g.cards| - 1)
    && (g.phase == Summary || g.phase == Closed ==> g.index == |g.cards| - 1 && !g.timerRunning)
    && |g.outcomes| == (if g.phase == Asking then g.index else g.index + 1)
    && g.score == ScoredPoints(g.cards, g.outcomes)
    && forall i :: 0 <= i < |g.outcomes| ==> Consistent(g.outcomes[i], g.cards[i])
  }

  /** `startTimer`: the countdown starts again from the full budget. */
  function StartTimer(g: Game): (r: Game)
    ensures r.timeLeft == TimeBudget && r.timerRunning
    ensures r.(timeLeft := g.timeLeft, timerRunning := g.timerRunning) == g
  {
    g.(timeLeft := TimeBudget, timerRunning := true)
  }

  /** The constructor: shuffle the deck, show the first card, start the timer. */
  function NewGame(deck: seq<Card>, draws: seq<nat>): (r: Result<Game, GameError>)
    ensures r.Failure? <==> |deck| == 0
    ensures r.Failure? ==> r.error == NoQuestion
    ensures r.Success? ==>
      && Valid(r.value)
      && multiset(r.value.cards) == multiset(deck)
      && r.value.index == 0 && r.value.score == 0
      && r.value.phase == Asking && r.value.outcomes == []
      && r.value.timeLeft == TimeBudget && r.value.timerRunning
  {
    if |deck| == 0 then Failure(NoQuestion)
    else Success(StartTimer(Game(Shuffle(deck, draws), 0, 0, 0, false, Asking, [])))
  }

  /** After a question is resolved: show the next button, or on the last card the final score. */
  function Resolve(g: Game): (r: Game)
    requires g.index < |g.cards|
    ensures r.cards == g.cards && r.index == g.index && r.score == g.score
    ensures r.timeLeft == g.timeLeft && r.outcomes == g.outcomes
    ensures r.phase == Revealed <==> g.index < |g.cards| - 1
    ensures r.phase == Summary <==> g.index == |g.cards| - 1
    ensures r.timerRunning <==> g.timerRunning && g.index < |g.cards| - 1
  {
    if g.index < |g.cards| - 1 then g.(phase := Revealed)
    else g.(phase := Summary, timerRunning := false)
  }

  lemma {:induction false} ScoredPointsFrame(a: seq<Card>, b: seq<Card>, outcomes: seq<Outcome>)
    requires |outcomes| <= |a| && |outcomes| <= |b|
    requires forall i :: 0 <= i < |outcomes| ==> a[i].Points() == b[i].Points()
    ensures ScoredPoints(a, outcomes) == ScoredPoints(b, outcomes)
    decreases |outcomes|
  {
    if |outcomes| > 0 {
      ScoredPointsFrame(a, b, outcomes[..|outcomes| - 1]);
    }
  }

  lemma ScoredPointsExtend(cards: seq<Card>, outcomes: seq<Outcome>, o: Outcome)
    requires |outcomes| < |cards|
    ensures ScoredPoints(cards, outcomes + [o])
         == ScoredPoints(cards, outcomes) + (if o == Correct then cards[|outcomes|].Points() else 0)
  {
    assert (outcomes + [o])[..|outcomes|] == outcomes;
  }

  /** The points of the correctly answered positions never exceed the points of those positions. */
  lemma {:induction false} ScoredPointsAtMostPrefix(cards: seq<Card>, outcomes: seq<Outcome>)
    requires |outcomes| <= |cards|
    ensures ScoredPoints(cards, outcomes) <= DeckPoints(cards[..|outcomes|])
    decreases |outcomes|
  {
    if |outcomes| > 0 {
      var n := |outcomes| - 1;
      ScoredPointsAtMostPrefix(cards, outcomes[..n]);
      assert cards[..|outcomes|][..n] == cards[..n];
    }
  }

  /**
   * `checkAnswer(int)`: submit the clicked option to the current card. A correct
   * answer adds exactly that card's points; a wrong one adds nothing. The card
   * refuses a second submission, which leaves the whole game as it was.
   */
  function Answer(g: Game, selected: string): (r: Result<Game, GameError>)
    requires Valid(g)
    ensures g.phase != Asking ==> r == Failure(NotAccepting)
    ensures g.phase == Asking && g.cards[g.index].isAnswered ==> r == Failure(CardAlreadyAnswered)
    ensures g.phase == Asking && !g.cards[g.index].isAnswered ==> r.Success?
    ensures r.Success? ==>
      var card := g.cards[g.index];
      var h := r.value;
      && Valid(h)
      && h.index == g.index
      && h.timeLeft == g.timeLeft
      && h.score == g.score + (if Recased(selected, card.answer) then card.Points() else 0)
      && |h.cards| == |g.cards|
      && h.cards[g.index].isAnswered
      && h.cards[g.index].userAnswer == Some(selected)
      && SameQuestion(h.cards[g.index], card)
      && (forall i :: 0 <= i < |g.cards| && i != g.index ==> h.cards[i] == g.cards[i])
      && h.outcomes == g.outcomes + [if Recased(selected, card.answer) then Correct else Wrong]
      && (h.phase == Summary <==> g.index == |g.cards| - 1)
      && (h.phase == Revealed <==> g.index < |g.cards| - 1)
      && (h.timerRunning <==> g.timerRunning && g.index < |g.cards| - 1)
  {
    if g.phase != Asking then Failure(NotAccepting)
    else
      var card := g.cards[g.index];
      match Submit(card, Some(selected))
      case Failure(_) => Failure(CardAlreadyAnswered)
      case Success((answered, correct)) =>
        var cards := g.cards[g.index := answered];
        var outcomes := g.outcomes + [if correct then Correct else Wrong];
        ScoredPointsFrame(g.cards, cards, g.outcomes);
        ScoredPointsExtend(cards, g.outcomes, if correct then Correct else Wrong);
        Success(Resolve(g.(cards := cards,
                           score := if correct then g.score + card.Points() else g.score,
                           outcomes := outcomes)))
  }

  /**
   * `timeUp`: cancel the timer and end the question without submitting anything
   * to the card; then show the next button, or on the last card the final score.
   */
  function TimeUp(g: Game): (r: Game)
    requires Valid(g) && g.timerRunning
    ensures Valid(r)
    ensures !r.timerRunning
    ensures r.cards == g.cards && r.index == g.index && r.score == g.score && r.timeLeft == g.timeLeft
    ensures r.outcomes == if g.phase == Asking then g.outcomes + [TimedOut] else g.outcomes
    ensures r.phase == Summary <==> g.index == |g.cards| - 1
    ensures r.phase == Revealed <==> g.index < |g.cards| - 1
  {
    if g.phase == Asking then
      ScoredPointsExtend(g.cards, g.outcomes, TimedOut);
      Resolve(g.(timerRunning := false, outcomes := g.outcomes + [TimedOut]))
    else
      Resolve(g.(timerRunning := false))
  }

  /**
   * One run of the timer task: count down while time is left, and once it is
   * at 0 call `timeUp`. A cancelled timer never runs its task again, so a tick
   * then changes nothing.
   */
  function Tick(g: Game): (r: Game)
    requires Valid(g)
    ensures Valid(r)
    ensures r.cards == g.cards && r.index == g.index && r.score == g.score
    ensures !g.timerRunning ==> r == g
    ensures g.timerRunning && g.timeLeft > 0 ==> r == g.(timeLeft := g.timeLeft - 1)
    ensures g.timerRunning && g.timeLeft == 0 ==> !r.timerRunning && r.timeLeft == 0 && r.phase != Asking
    ensures g.timerRunning && g.timeLeft == 0 && g.phase == Asking ==> r.outcomes == g.outcomes + [TimedOut]
  {
    if !g.timerRunning then g
    else if g.timeLeft > 0 then g.(timeLeft := g.timeLeft - 1)
    else TimeUp(g)
  }

  /**
   * `showNextQuestion`: move to the next card and show it. The countdown is
   * neither reset nor restarted, so the remaining time carries over.
   */
  function Advance(g: Game): (r: Result<Game, GameError>)
    requires Valid(g)
    ensures g.phase != Revealed ==> r == Failure(NotAccepting)
    ensures g.phase == Revealed ==>
      && r.Success?
      && Valid(r.value)
      && r.value.index == g.index + 1
      && r.value.phase == Asking
      && r.value.timeLeft == g.timeLeft && r.value.timerRunning == g.timerRunning
      && r.value.score == g.score && r.value.cards == g.cards && r.value.outcomes == g.outcomes
  {
    if g.phase != Revealed then Failure(NotAccepting)
    else Success(g.(index := g.index + 1, phase := Asking))
  }

  /**
   * The choice in the final-score dialog. Playing again puts the index and the
   * score back to 0, deals the same cards in the reshuffled order `dealt` and
   * restarts the timer; it does not reset the cards. Declining disposes of the
   * window. `dealt` is whatever the shuffle produced: some reordering of the cards.
   */
  function GameOver(g: Game, playAgain: bool, dealt: seq<Card>): (r: Result<Game, GameError>)
    requires Valid(g)
    requires multiset(dealt) == multiset(g.cards)
    ensures g.phase != Summary ==> r == Failure(NotAccepting)
    ensures g.phase == Summary ==> r.Success? && Valid(r.value)
    ensures g.phase == Summary && !playAgain ==>
      r.value == g.(phase := Closed)
    ensures g.phase == Summary && playAgain ==>
      && r.value.index == 0 && r.value.score == 0
      && r.value.phase == Asking && r.value.outcomes == []
      && r.value.timeLeft == TimeBudget && r.value.timerRunning
      && r.value.cards == dealt
  {
    if g.phase != Summary then Failure(NotAccepting)
    else if playAgain then
      assert |dealt| == |multiset(dealt)| == |g.cards|;
      Success(StartTimer(g.(cards := dealt, index := 0, score := 0, phase := Asking, outcomes := [])))
    else Success(g.(phase := Closed))
  }

  /** The events the window delivers to the game. */
  datatype Event =
    | TimerFired
    | OptionClicked(selected: string)
    | NextClicked
    | DialogClosed(playAgain: bool, draws: seq<nat>)

  predicate IsReplay(e: Event) {
    e.DialogClosed? && e.playAgain
  }

  function Step(g: Game, e: Event): (r: Result<Game, GameError>)
    requires Valid(g)
    ensures r.Success? ==> Valid(r.value)
    ensures e == TimerFired ==> r.Success?
  {
    match e
    case TimerFired => Success(Tick(g))
    case OptionClicked(selected) => Answer(g, selected)
    case NextClicked => Advance(g)
    case DialogClosed(playAgain, draws) => GameOver(g, playAgain, Shuffle(g.cards, draws))
  }

  /** Deliver events in order; an event whose handler throws leaves the game as it was. */
  function Run(g: Game, events: seq<Event>): (r: Game)
    requires Valid(g)
    ensures Valid(r)
    decreases |events|
  {
    if |events| == 0 then g
    else
      var s := Step(g, events[0]);
      Run(if s.Success? then s.value else g, events[1..])
  }

  /** `n` consecutive timer events. */
  function Ticks(n: nat): (es: seq<Event>)
    ensures |es| == n && forall i :: 0 <= i < n ==> es[i] == TimerFired
  {
    seq(n, _ => TimerFired)
  }
}
