/** Concrete plays over two cards of the sample deck. */
module Scenarios {
  import opened Text
  import opened Shuffling
  import opened Cards
  import opened Session
  import opened Summary
  import opened Play

  function Paris(): Card {
    NewCard("What is the capital of France?", "Paris", ["London", "Paris", "Berlin", "Madrid"], Easy, "Geography")
  }

  function Gold(): Card {
    NewCard("What is the chemical symbol for gold?", "Au", ["Ag", "Au", "Fe", "Cu"], Medium, "Science")
  }

  /** The single draw 1 swaps the last card with itself, so the deck is dealt in order. */
  lemma DealtInOrder()
    ensures Shuffle([Paris(), Gold()], [1]) == [Paris(), Gold()]
  {
    var s := [Paris(), Gold()];
    assert Draw([1], 2) == 1;
    assert Swap(s, 1, 1) == s;
    assert ShuffleFrom(s, 2, [1]) == ShuffleFrom(s, 1, []);
  }

  lemma FirstAnswerAccepted(g: Game)
    requires Valid(g) && g.phase == Asking && g.index == 0 && g.cards == [Paris(), Gold()]
    ensures Answer(g, "paris").Success?
    ensures Answer(g, "paris").value.score == g.score + 100
    ensures Answer(g, "paris").value.phase == Revealed
  {
    assert Lower("paris") == Lower("Paris");
    EqualsIgnoreCaseIffRecased("paris", "Paris");
  }

  lemma SecondAnswerWrong(g: Game)
    requires Valid(g) && g.phase == Asking && g.index == 1 && |g.cards| == 2 && g.cards[1] == Gold()
    ensures Answer(g, "Fe").Success?
    ensures Answer(g, "Fe").value.score == g.score
    ensures Answer(g, "Fe").value.phase == Summary
  {
    assert Lower("Fe")[0] == 'f' && Lower("Au")[0] == 'a';
    EqualsIgnoreCaseIffRecased("Fe", "Au");
  }

  /** 100 points over two questions is 50 percent, the lowest grade. */
  lemma HalfMarksReport(cards: seq<Card>)
    requires |cards| == 2
    ensures FinalReport(cards, 100).percentage == 50.0
    ensures FinalReport(cards, 100).grade == KeepPracticing
  {
    ReachesIffPercentage(100, 2, 50);
    ReachesIffPercentage(100, 2, 60);
  }

  /**
   * Dealt in order, "paris" is accepted whatever its case and "Fe" is judged
   * wrong: the round ends on the second card with 100 points, 50 percent and
   * the lowest grade. The window only ever sends an option's text as written
   * ("Paris"), so the lower-case click goes beyond what it can deliver and
   * exercises the card's case folding on its own.
   */
  lemma CaseInsensitiveRound()
    ensures NewGame([Paris(), Gold()], [1]).Success?
    ensures var h := Run(NewGame([Paris(), Gold()], [1]).value,
                         [OptionClicked("paris"), NextClicked, OptionClicked("Fe")]);
      && h.phase == Summary
      && h.score == 100
      && FinalReport(h.cards, h.score).percentage == 50.0
      && FinalReport(h.cards, h.score).grade == KeepPracticing
  {
    DealtInOrder();
    var g := NewGame([Paris(), Gold()], [1]).value;
    var e1: seq<Event> := [OptionClicked("paris")];
    var e2: seq<Event> := [NextClicked];
    var e3: seq<Event> := [OptionClicked("Fe")];
    assert [OptionClicked("paris"), NextClicked, OptionClicked("Fe")] == e1 + e2 + e3;
    RunAppend(g, e1 + e2, e3);
    RunAppend(g, e1, e2);
    assert e1[1..] == [] && e2[1..] == [] && e3[1..] == [];
    FirstAnswerAccepted(g);
    var a := Answer(g, "paris").value;
    assert Run(g, e1) == a;
    var b := Advance(a).value;
    assert Run(a, e2) == b;
    SecondAnswerWrong(b);
    var h := Answer(b, "Fe").value;
    assert Run(b, e3) == h;
    HalfMarksReport(h.cards);
  }
}
