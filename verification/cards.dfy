/**
 * A trivia card: a fixed question, answer, option list, difficulty and category,
 * plus the mutable answer state `isAnswered` / `userAnswer`.
 */
module Cards {
  import opened Wrappers
  import opened Text
  import opened Sums

  /** Difficulty levels and the points a correct answer earns. */
  datatype Difficulty = Easy | Medium | Hard | Expert {
    function Points(): (p: nat)
      ensures 100 <= p <= 500 && p % 100 == 0
      ensures this == Easy <==> p == 100
    {
      match this
      case Easy => 100
      case Medium => 200
      case Hard => 300
      case Expert => 500
    }
  }

  datatype CardError = AlreadyAnswered

  datatype Card = Card(
    question: string,
    answer: string,
    options: seq<string>,
    difficulty: Difficulty,
    category: string,
    isAnswered: bool,
    userAnswer: Option<string>)
  {
    /** The card's point value, fixed by its difficulty when it is built. */
    function Points(): nat {
      difficulty.Points()
    }

    /** The card's stored answer matches, ignoring case; a null answer never matches. */
    predicate IsCorrect() {
      userAnswer.Some? && EqualsIgnoreCase(userAnswer.value, answer)
    }

    /** The state of a card that has not been answered since it was built or reset. */
    predicate IsFresh() {
      !isAnswered && userAnswer.None?
    }
  }

  /** The two cards agree on everything but their answer state. */
  predicate SameQuestion(a: Card, b: Card) {
    && a.question == b.question
    && a.answer == b.answer
    && a.options == b.options
    && a.difficulty == b.difficulty
    && a.category == b.category
  }

  /** The constructor: an unanswered card worth its difficulty's points. */
  function NewCard(question: string, answer: string, options: seq<string>,
                   difficulty: Difficulty, category: string): (c: Card)
    ensures c.IsFresh()
    ensures c.Points() == difficulty.Points()
    ensures c.question == question && c.answer == answer && c.options == options
    ensures c.difficulty == difficulty && c.category == category
  {
    Card(question, answer, options, difficulty, category, false, None)
  }

  /**
   * `submitAnswer`: refused once the card is answered; otherwise records the
   * answer and reports whether it matches the card's answer, ignoring case.
   */
  function Submit(c: Card, s: Option<string>): (r: Result<(Card, bool), CardError>)
    ensures r.Failure? <==> c.isAnswered
    ensures r.Failure? ==> r.error == AlreadyAnswered
    ensures r.Success? ==>
      && r.value.0.isAnswered
      && r.value.0.userAnswer == s
      && SameQuestion(r.value.0, c)
      && (r.value.1 <==> s.Some? && Recased(s.value, c.answer))
  {
    if c.isAnswered then Failure(AlreadyAnswered)
    else
      var answered := c.(isAnswered := true, userAnswer := s);
      assert answered.IsCorrect() <==> s.Some? && Recased(s.value, c.answer) by {
        if s.Some? {
          EqualsIgnoreCaseIffRecased(s.value, c.answer);
        }
      }
      Success((answered, answered.IsCorrect()))
  }

  /** `reset`: back to the unanswered state, the question itself untouched. */
  function Reset(c: Card): (r: Card)
    ensures r.IsFresh()
    ensures SameQuestion(r, c)
  {
    c.(isAnswered := false, userAnswer := None)
  }

  /** The total points of a deck. */
  function DeckPoints(cards: seq<Card>): nat {
    SumOf(cards, (c: Card) => c.Points())
  }

  /** A second submission fails whatever is submitted, so a card is answered at most once. */
  lemma SubmitOnlyOnce(c: Card, first: Option<string>, second: Option<string>)
    requires Submit(c, first).Success?
    ensures Submit(Submit(c, first).value.0, second) == Failure(AlreadyAnswered)
  {
  }

  /** Resetting twice is resetting once. */
  lemma ResetIdempotent(c: Card)
    ensures Reset(Reset(c)) == Reset(c)
  {
  }

  /** After `reset`, one submission behaves exactly as on a freshly built card. */
  lemma SubmitAfterResetIsFresh(c: Card, s: Option<string>)
    ensures Reset(c) == NewCard(c.question, c.answer, c.options, c.difficulty, c.category)
    ensures Submit(Reset(c), s) == Submit(NewCard(c.question, c.answer, c.options, c.difficulty, c.category), s)
  {
  }

  /** The card's own answer, in any casing, is accepted on an unanswered card. */
  lemma AnyCasingOfAnswerAccepted(c: Card)
    requires !c.isAnswered
    ensures Submit(c, Some(c.answer)).value.1
    ensures Submit(c, Some(Upper(c.answer))).value.1
    ensures Submit(c, Some(Lower(c.answer))).value.1
  {
    CasingPreservesEquality(c.answer);
    EqualsIgnoreCaseIffRecased(c.answer, c.answer);
    EqualsIgnoreCaseIffRecased(Upper(c.answer), c.answer);
    EqualsIgnoreCaseIffRecased(Lower(c.answer), c.answer);
  }

  /** A deck of `n` cards holds at least `n` Easy cards' worth of points. */
  lemma {:induction false} DeckPointsAtLeastEasy(cards: seq<Card>)
    ensures DeckPoints(cards) >= |cards| * Easy.Points()
    ensures DeckPoints(cards) == |cards| * Easy.Points() <==> forall i :: 0 <= i < |cards| ==> cards[i].difficulty == Easy
    decreases |cards|
  {
    if |cards| > 0 {
      var front := cards[..|cards| - 1];
      DeckPointsAtLeastEasy(front);
      assert DeckPoints(cards) == DeckPoints(front) + cards[|cards| - 1].Points();
      if forall i :: 0 <= i < |cards| ==> cards[i].difficulty == Easy {
        assert forall i :: 0 <= i < |front| ==> front[i].difficulty == Easy by {
          forall i | 0 <= i < |front| ensures front[i].difficulty == Easy {
            assert front[i] == cards[i];
          }
        }
      } else if forall i :: 0 <= i < |front| ==> front[i].difficulty == Easy {
        assert cards[|cards| - 1].difficulty != Easy by {
          var k :| 0 <= k < |cards| && cards[k].difficulty != Easy;
          if k < |front| {
            assert front[k] == cards[k];
          }
        }
      }
    }
  }
}
