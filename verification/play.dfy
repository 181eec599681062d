/** Properties of whole sequences of events delivered to a game. */
module Play {
  import opened Wrappers
  import opened Sums
  import opened Cards
  import opened Session

  /** Every card of the deck has been answered at some time. */
  predicate AllAnswered(cards: seq<Card>) {
    forall i :: 0 <= i < |cards| ==> cards[i].isAnswered
  }

  lemma {:induction false} RunAppend(g: Game, a: seq<Event>, b: seq<Event>)
    requires Valid(g)
    ensures Run(g, a + b) == Run(Run(g, a), b)
    decreases |a|
  {
    if |a| > 0 {
      assert (a + b)[0] == a[0];
      assert (a + b)[1..] == a[1..] + b;
      var s := Step(g, a[0]);
      RunAppend(if s.Success? then s.value else g, a[1..], b);
    } else {
      assert a + b == b;
    }
  }

  /** No event changes the points the deck holds: answering keeps each card's value, replay only reorders. */
  lemma StepKeepsDeckPoints(g: Game, e: Event)
    requires Valid(g)
    ensures Step(g, e).Success? ==> DeckPoints(Step(g, e).value.cards) == DeckPoints(g.cards)
  {
    if Step(g, e).Failure? {
      return;
    }
    var h := Step(g, e).value;
    match e
    case OptionClicked(selected) =>
      SumOfPointwise(h.cards, g.cards, (c: Card) => c.Points());
    case DialogClosed(playAgain, draws) =>
      SumOfPermutation(h.cards, g.cards, (c: Card) => c.Points());
    case _ =>
  }

  lemma {:induction false} RunKeepsDeckPoints(g: Game, es: seq<Event>)
    requires Valid(g)
    ensures DeckPoints(Run(g, es).cards) == DeckPoints(g.cards)
    decreases |es|
  {
    if |es| > 0 {
      var s := Step(g, es[0]);
      StepKeepsDeckPoints(g, es[0]);
      RunKeepsDeckPoints(if s.Success? then s.value else g, es[1..]);
    }
  }

  /** In every valid state the score is the points of this round's correct answers, and within the deck's total. */
  lemma ScoreWithinDeck(g: Game)
    requires Valid(g)
    ensures g.score == ScoredPoints(g.cards, g.outcomes)
    ensures g.score <= DeckPoints(g.cards)
  {
    ScoredPointsAtMostPrefix(g.cards, g.outcomes);
    SumOfPrefix(g.cards, |g.outcomes|, (c: Card) => c.Points());
  }

  /**
   * Whatever the player does after the game is built, the index stays on a card,
   * the score is exactly the points of the cards answered correctly in the current
   * round, and it never exceeds the total points of the deck that was dealt.
   */
  lemma ReachableStatesKeepInvariant(deck: seq<Card>, draws: seq<nat>, es: seq<Event>)
    requires |deck| > 0
    ensures NewGame(deck, draws).Success?
    ensures var h := Run(NewGame(deck, draws).value, es);
      && h.index < |h.cards|
      && h.score == ScoredPoints(h.cards, h.outcomes)
      && (forall i :: 0 <= i < |h.outcomes| && h.outcomes[i] == Correct ==> h.cards[i].IsCorrect())
      && h.score <= DeckPoints(deck)
  {
    var g := NewGame(deck, draws).value;
    var h := Run(g, es);
    ScoreWithinDeck(h);
    RunKeepsDeckPoints(g, es);
    SumOfPermutation(g.cards, deck, (c: Card) => c.Points());
    forall i | 0 <= i < |h.outcomes| && h.outcomes[i] == Correct
      ensures h.cards[i].IsCorrect()
    {
      assert Consistent(h.outcomes[i], h.cards[i]);
    }
  }

  /** While time is left, each timer event takes exactly one second off and changes nothing else. */
  lemma {:induction false} TicksCountDown(g: Game, n: nat)
    requires Valid(g) && g.timerRunning && n <= g.timeLeft
    ensures Run(g, Ticks(n)) == g.(timeLeft := g.timeLeft - n)
    decreases n
  {
    if n > 0 {
      var g' := Tick(g);
      assert Step(g, TimerFired) == Success(g');
      assert Ticks(n)[0] == TimerFired;
      assert Ticks(n)[1..] == Ticks(n - 1);
      TicksCountDown(g', n - 1);
    }
  }

  /**
   * With the timer running on an open question, the question is timed out by the
   * timer event that follows the one bringing the countdown to 0: the timer is
   * cancelled, nothing is submitted to the card and the score stays as it was.
   */
  lemma TimeUpAfterCountdown(g: Game)
    requires Valid(g) && g.timerRunning && g.phase == Asking
    ensures var h := Run(g, Ticks(g.timeLeft + 1));
      && !h.timerRunning
      && h.phase != Asking
      && h.outcomes == g.outcomes + [TimedOut]
      && h.cards == g.cards && h.score == g.score && h.index == g.index
      && (h.phase == Summary <==> g.index == |g.cards| - 1)
  {
    assert Ticks(g.timeLeft + 1) == Ticks(g.timeLeft) + [TimerFired];
    RunAppend(g, Ticks(g.timeLeft), [TimerFired]);
    TicksCountDown(g, g.timeLeft);
    var z := g.(timeLeft := 0);
    assert Run(z, [TimerFired]) == Tick(z) by {
      assert [TimerFired][1..] == [];
    }
  }

  /** A freshly started timer times the question out on its 31st event, not its 30th. */
  lemma FreshTimerTimesOutOnThirtyFirstTick(g: Game)
    requires Valid(g) && g.timerRunning && g.phase == Asking && g.timeLeft == TimeBudget
    ensures Run(g, Ticks(TimeBudget)).phase == Asking
    ensures Run(g, Ticks(TimeBudget)).timeLeft == 0
    ensures Run(g, Ticks(TimeBudget + 1)).phase != Asking
  {
    TicksCountDown(g, TimeBudget);
    TimeUpAfterCountdown(g);
  }

  /**
   * Answering does not stop the countdown: with the next button showing, the
   * following timer event still takes a second off the shared budget.
   */
  lemma TimerRunsOnAfterAnswer(g: Game, selected: string)
    requires Valid(g) && g.phase == Asking && g.timerRunning && g.timeLeft > 0
    requires g.index < |g.cards| - 1 && !g.cards[g.index].isAnswered
    ensures Answer(g, selected).Success?
    ensures Tick(Answer(g, selected).value).timeLeft == g.timeLeft - 1
    ensures Tick(Answer(g, selected).value).phase == Revealed
  {
  }

  /**
   * Only replay starts the countdown again: without it the time left never goes
   * up (advancing keeps it, so the budget is shared across questions) and a
   * cancelled timer stays cancelled.
   */
  lemma {:induction false} TimerNeverRewound(g: Game, es: seq<Event>)
    requires Valid(g)
    requires forall i :: 0 <= i < |es| ==> !IsReplay(es[i])
    ensures Run(g, es).timeLeft <= g.timeLeft
    ensures Run(g, es).timerRunning ==> g.timerRunning
    decreases |es|
  {
    if |es| > 0 {
      var s := Step(g, es[0]);
      var g' := if s.Success? then s.value else g;
      assert g'.timeLeft <= g.timeLeft && (g'.timerRunning ==> g.timerRunning) by {
        if s.Success? && es[0].DialogClosed? {
          assert !es[0].playAgain;
        }
      }
      TimerNeverRewound(g', es[1..]);
    }
  }

  /**
   * Replay deals the very same card objects, answer state included, so a card
   * answered in the previous round refuses every answer in the new one.
   */
  lemma ReplayKeepsAnswerState(g: Game, dealt: seq<Card>)
    requires Valid(g) && g.phase == Summary && multiset(dealt) == multiset(g.cards)
    ensures var h := GameOver(g, true, dealt).value;
      && (forall c :: c in h.cards <==> c in g.cards)
      && (h.cards[0].isAnswered ==> forall s :: Answer(h, s) == Failure(CardAlreadyAnswered))
  {
    var h := GameOver(g, true, dealt).value;
    forall c
      ensures c in h.cards <==> c in g.cards
    {
      assert c in h.cards <==> c in multiset(h.cards);
      assert c in g.cards <==> c in multiset(g.cards);
    }
  }

  /** A round in which no question timed out leaves every card answered. */
  lemma FullRoundAnswersEveryCard(g: Game)
    requires Valid(g) && (g.phase == Summary || g.phase == Closed)
    requires forall i :: 0 <= i < |g.outcomes| ==> g.outcomes[i] != TimedOut
    ensures AllAnswered(g.cards)
  {
    forall i | 0 <= i < |g.cards|
      ensures g.cards[i].isAnswered
    {
      assert Consistent(g.outcomes[i], g.cards[i]);
    }
  }

  lemma StepKeepsNothingScored(g: Game, e: Event)
    requires Valid(g) && AllAnswered(g.cards) && g.score == 0
    ensures Step(g, e).Success? ==> AllAnswered(Step(g, e).value.cards) && Step(g, e).value.score == 0
  {
    if Step(g, e).Failure? {
      return;
    }
    var h := Step(g, e).value;
    if e.DialogClosed? && e.playAgain && g.phase == Summary {
      forall i | 0 <= i < |h.cards|
        ensures h.cards[i].isAnswered
      {
        assert h.cards[i] in multiset(g.cards);
      }
    }
  }

  /** Once every card is answered and the score is 0, no sequence of events ever scores a point. */
  lemma {:induction false} NothingScoredOnceAllAnswered(g: Game, es: seq<Event>)
    requires Valid(g) && AllAnswered(g.cards) && g.score == 0
    ensures AllAnswered(Run(g, es).cards)
    ensures Run(g, es).score == 0
    decreases |es|
  {
    if |es| > 0 {
      var s := Step(g, es[0]);
      StepKeepsNothingScored(g, es[0]);
      NothingScoredOnceAllAnswered(if s.Success? then s.value else g, es[1..]);
    }
  }

  /** After replaying a round in which every question was answered, the score stays 0 for good. */
  lemma ReplayAfterFullRoundScoresNothing(g: Game, dealt: seq<Card>, es: seq<Event>)
    requires Valid(g) && g.phase == Summary && multiset(dealt) == multiset(g.cards)
    requires forall i :: 0 <= i < |g.outcomes| ==> g.outcomes[i] != TimedOut
    ensures GameOver(g, true, dealt).Success?
    ensures Run(GameOver(g, true, dealt).value, es).score == 0
  {
    FullRoundAnswersEveryCard(g);
    var h := GameOver(g, true, dealt).value;
    forall i | 0 <= i < |h.cards|
      ensures h.cards[i].isAnswered
    {
      assert h.cards[i] in multiset(g.cards);
    }
    NothingScoredOnceAllAnswered(h, es);
  }

  /**
   * A shown question whose card is already answered, with the timer cancelled,
   * accepts no event at all: every answer is refused, the next button is hidden
   * and no timer event arrives, so the game stays exactly as it is.
   */
  lemma {:induction false} StuckWhenAnsweredAndUntimed(g: Game, es: seq<Event>)
    requires Valid(g) && g.phase == Asking && !g.timerRunning && g.cards[g.index].isAnswered
    ensures Run(g, es) == g
    decreases |es|
  {
    if |es| > 0 {
      var s := Step(g, es[0]);
      assert !s.Success? || s.value == g;
      StuckWhenAnsweredAndUntimed(g, es[1..]);
    }
  }

  /**
   * After replaying a fully answered round of at least two cards, letting the
   * first question time out and moving on leaves the game stuck on the second
   * question for ever.
   */
  lemma ReplayedFullRoundGetsStuck(g: Game, dealt: seq<Card>)
    requires Valid(g) && g.phase == Summary && |g.cards| >= 2 && multiset(dealt) == multiset(g.cards)
    requires forall i :: 0 <= i < |g.outcomes| ==> g.outcomes[i] != TimedOut
    ensures var h := Run(GameOver(g, true, dealt).value, Ticks(TimeBudget + 1) + [NextClicked]);
      && h.index == 1 && h.phase == Asking && !h.timerRunning
      && forall es :: Run(h, es) == h
  {
    FullRoundAnswersEveryCard(g);
    var r := GameOver(g, true, dealt).value;
    forall i | 0 <= i < |r.cards|
      ensures r.cards[i].isAnswered
    {
      assert r.cards[i] in multiset(g.cards);
    }
    TimeUpAfterCountdown(r);
    var t := Run(r, Ticks(TimeBudget + 1));
    RunAppend(r, Ticks(TimeBudget + 1), [NextClicked]);
    assert t.phase == Revealed;
    var h := Run(t, [NextClicked]);
    assert h == Advance(t).value by {
      assert [NextClicked][1..] == [];
    }
    forall es
      ensures Run(h, es) == h
    {
      StuckWhenAnsweredAndUntimed(h, es);
    }
  }
}
