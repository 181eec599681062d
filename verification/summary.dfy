/**
 * The end-of-game summary: the accuracy percentage, the grade band and the
 * per-category breakdown shown in the final-score dialog.
 */
module Summary {
  import opened Sums
  import opened Cards

  datatype Grade = Outstanding | Excellent | Great | GoodEffort | KeepPracticing

  /** Bands from the lowest (0) to the highest (4). */
  function Rank(g: Grade): nat {
    match g
    case KeepPracticing => 0
    case GoodEffort => 1
    case Great => 2
    case Excellent => 3
    case Outstanding => 4
  }

  /**
   * The accuracy as a real number: the score against a baseline of one Easy
   * card per question, whatever the cards' actual difficulties.
   */
  function Percentage(score: nat, questions: nat): (p: real)
    requires questions > 0
    ensures p >= 0.0
    ensures p * (questions * Easy.Points()) as real == (score * 100) as real
    ensures p == 0.0 <==> score == 0
  {
    var q := (score as real * 100.0) / ((questions * Easy.Points()) as real);
    assert q * (questions * Easy.Points()) as real == score as real * 100.0;
    q
  }

  /** `percentage >= threshold`, decided by integer cross-multiplication. */
  predicate Reaches(score: nat, questions: nat, threshold: nat)
    requires questions > 0
  {
    score * 100 >= threshold * (questions * Easy.Points())
  }

  /** Comparing a quotient with a whole number is comparing the numerator with a multiple of the denominator. */
  lemma QuotientCompare(n: nat, d: nat, t: nat)
    requires d > 0
    ensures n as real / d as real >= t as real <==> n >= t * d
    ensures n as real / d as real == t as real <==> n == t * d
  {
    var q := n as real / d as real;
    assert q * d as real == n as real;
    assert (t * d) as real == t as real * d as real;
    if q >= t as real {
      assert q * d as real >= t as real * d as real;
    } else {
      assert q * d as real < t as real * d as real;
    }
  }

  /** The integer comparison decides exactly the comparison on the real-valued percentage. */
  lemma ReachesIffPercentage(score: nat, questions: nat, threshold: nat)
    requires questions > 0
    ensures Reaches(score, questions, threshold) <==> Percentage(score, questions) >= threshold as real
    ensures score * 100 == threshold * (questions * Easy.Points()) <==> Percentage(score, questions) == threshold as real
  {
    assert (score as real * 100.0) == (score * 100) as real;
    QuotientCompare(score * 100, questions * Easy.Points(), threshold);
  }

  /** The grade band for the final score: inclusive thresholds 90, 80, 70 and 60, checked from the top. */
  function GradeFor(score: nat, questions: nat): (g: Grade)
    requires questions > 0
    ensures g == Outstanding <==> Percentage(score, questions) >= 90.0
    ensures g == Excellent <==> 80.0 <= Percentage(score, questions) < 90.0
    ensures g == Great <==> 70.0 <= Percentage(score, questions) < 80.0
    ensures g == GoodEffort <==> 60.0 <= Percentage(score, questions) < 70.0
    ensures g == KeepPracticing <==> Percentage(score, questions) < 60.0
  {
    ReachesIffPercentage(score, questions, 90);
    ReachesIffPercentage(score, questions, 80);
    ReachesIffPercentage(score, questions, 70);
    ReachesIffPercentage(score, questions, 60);
    if Reaches(score, questions, 90) then Outstanding
    else if Reaches(score, questions, 80) then Excellent
    else if Reaches(score, questions, 70) then Great
    else if Reaches(score, questions, 60) then GoodEffort
    else KeepPracticing
  }

  /** A higher score never earns a lower grade. */
  lemma GradeMonotone(lo: nat, hi: nat, questions: nat)
    requires questions > 0 && lo <= hi
    ensures Rank(GradeFor(lo, questions)) <= Rank(GradeFor(hi, questions))
  {
    assert lo * 100 <= hi * 100;
    assert Reaches(lo, questions, 90) ==> Reaches(hi, questions, 90);
    assert Reaches(lo, questions, 80) ==> Reaches(hi, questions, 80);
    assert Reaches(lo, questions, 70) ==> Reaches(hi, questions, 70);
    assert Reaches(lo, questions, 60) ==> Reaches(hi, questions, 60);
  }

  /** Answering every question of a deck correctly scores at least 100 percent, exactly 100 only when all are Easy. */
  lemma PerfectRoundPercentage(cards: seq<Card>)
    requires |cards| > 0
    ensures Percentage(DeckPoints(cards), |cards|) >= 100.0
    ensures Percentage(DeckPoints(cards), |cards|) == 100.0
        <==> forall i :: 0 <= i < |cards| ==> cards[i].difficulty == Easy
    ensures GradeFor(DeckPoints(cards), |cards|) == Outstanding
  {
    DeckPointsAtLeastEasy(cards);
    ReachesIffPercentage(DeckPoints(cards), |cards|, 100);
    ReachesIffPercentage(DeckPoints(cards), |cards|, 90);
  }

  /** The categories present in a deck. */
  function Categories(cards: seq<Card>): set<string> {
    set c | c in cards :: c.category
  }

  /** The points of the deck's cards in one category. */
  function CategoryPoints(cards: seq<Card>, category: string): nat {
    SumOf(cards, (c: Card) => if c.category == category then c.Points() else 0)
  }

  lemma CategoriesOfExtension(cards: seq<Card>, c: Card)
    ensures Categories(cards + [c]) == Categories(cards) + {c.category}
  {
    var s := cards + [c];
    forall k | k in Categories(s)
      ensures k in Categories(cards) + {c.category}
    {
      var x :| x in s && x.category == k;
      if x != c {
        assert x in cards;
      }
    }
    forall k | k in Categories(cards)
      ensures k in Categories(s)
    {
      var x :| x in cards && x.category == k;
      assert x in s;
    }
    assert c in s;
  }

  lemma CategoryPointsExtension(cards: seq<Card>, c: Card, category: string)
    ensures CategoryPoints(cards + [c], category)
         == CategoryPoints(cards, category) + (if c.category == category then c.Points() else 0)
  {
    assert (cards + [c])[..|cards|] == cards;
  }

  /** A category with no card in the deck holds no points. */
  lemma {:induction false} CategoryPointsAbsent(cards: seq<Card>, category: string)
    requires category !in Categories(cards)
    ensures CategoryPoints(cards, category) == 0
    decreases |cards|
  {
    if |cards| > 0 {
      var front := cards[..|cards| - 1];
      var c := cards[|cards| - 1];
      assert cards == front + [c];
      CategoriesOfExtension(front, c);
      CategoryPointsAbsent(front, category);
      CategoryPointsExtension(front, c, category);
    }
  }

  /**
   * The category totals merged card by card into a map: each category of the
   * deck maps to the points of its cards, which is at least one Easy card's worth.
   */
  function CategoryTotals(cards: seq<Card>): (totals: map<string, nat>)
    ensures totals.Keys == Categories(cards)
    ensures forall k :: k in totals ==> totals[k] == CategoryPoints(cards, k)
    ensures forall k :: k in totals ==> totals[k] >= Easy.Points()
    decreases |cards|
  {
    if |cards| == 0 then map[]
    else
      var front := cards[..|cards| - 1];
      var c := cards[|cards| - 1];
      var rest := CategoryTotals(front);
      assert cards == front + [c];
      CategoriesOfExtension(front, c);
      assert c.category !in rest ==> CategoryPoints(front, c.category) == 0 by {
        if c.category !in rest {
          CategoryPointsAbsent(front, c.category);
        }
      }
      assert forall k :: CategoryPoints(cards, k) == CategoryPoints(front, k) + (if c.category == k then c.Points() else 0) by {
        forall k ensures CategoryPoints(cards, k) == CategoryPoints(front, k) + (if c.category == k then c.Points() else 0) {
          CategoryPointsExtension(front, c, k);
        }
      }
      rest[c.category := (if c.category in rest then rest[c.category] else 0) + c.Points()]
  }

  /** The same cards in another order have the same categories, each holding the same points. */
  lemma CategoryPointsIgnoreOrder(a: seq<Card>, b: seq<Card>)
    requires multiset(a) == multiset(b)
    ensures Categories(a) == Categories(b)
    ensures forall k :: CategoryPoints(a, k) == CategoryPoints(b, k)
  {
    forall k | k in Categories(a) ensures k in Categories(b) {
      var x :| x in a && x.category == k;
      assert x in multiset(b);
    }
    forall k | k in Categories(b) ensures k in Categories(a) {
      var x :| x in b && x.category == k;
      assert x in multiset(a);
    }
    forall k
      ensures CategoryPoints(a, k) == CategoryPoints(b, k)
    {
      SumOfPermutation(a, b, (c: Card) => if c.category == k then c.Points() else 0);
    }
  }

  /** Dealing the same cards in another order gives the same category totals. */
  lemma CategoryTotalsIgnoreOrder(a: seq<Card>, b: seq<Card>)
    requires multiset(a) == multiset(b)
    ensures CategoryTotals(a) == CategoryTotals(b)
  {
    CategoryPointsIgnoreOrder(a, b);
  }

  /** One category's accuracy: the points scored in it times 100 over the points it holds. */
  function Accuracy(scored: nat, total: nat): (r: real)
    requires total > 0
    ensures r >= 0.0
    ensures r * total as real == (scored * 100) as real
    ensures r == 0.0 <==> scored == 0
  {
    var q := (scored as real * 100.0) / (total as real);
    assert q * total as real == scored as real * 100.0;
    assert (scored * 100) as real == scored as real * 100.0;
    q
  }

  /** The points recorded for a category, 0 when it has no entry. */
  function ScoredIn(scored: map<string, nat>, category: string): nat {
    if category in scored then scored[category] else 0
  }

  /** The per-category accuracy for every category of the deck. */
  function Breakdown(cards: seq<Card>, scored: map<string, nat>): (b: map<string, real>)
    ensures b.Keys == Categories(cards)
    ensures forall k :: k in b ==> CategoryPoints(cards, k) >= Easy.Points()
    ensures forall k :: k in b ==>
      CategoryPoints(cards, k) > 0 && b[k] == Accuracy(ScoredIn(scored, k), CategoryPoints(cards, k))
  {
    var totals := CategoryTotals(cards);
    map k | k in totals :: Accuracy(ScoredIn(scored, k), totals[k])
  }

  datatype Report = Report(
    finalScore: nat,
    questions: nat,
    percentage: real,
    breakdown: map<string, real>,
    grade: Grade)

  /**
   * `showFinalScore`'s figures. The per-category scored map is created empty and
   * never written, so every category's accuracy is reported as 0.
   */
  function FinalReport(cards: seq<Card>, score: nat): (r: Report)
    requires |cards| > 0
    ensures r.finalScore == score && r.questions == |cards|
    ensures r.percentage == Percentage(score, |cards|)
    ensures r.grade == GradeFor(score, |cards|)
    ensures r.breakdown.Keys == Categories(cards)
    ensures forall k :: k in r.breakdown ==> r.breakdown[k] == 0.0
  {
    var categoryScores: map<string, nat> := map[];
    Report(score, |cards|, Percentage(score, |cards|), Breakdown(cards, categoryScores), GradeFor(score, |cards|))
  }
}
