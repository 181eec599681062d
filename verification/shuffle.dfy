/**
 * The list shuffle used at game start and at replay. The JDK's shuffle of a
 * random-access list walks `i` from the size down to 2 and swaps position
 * `i - 1` with a position drawn from `[0, i)`. The random draws are a parameter
 * here and each draw is reduced into its range. The model admits any sequence
 * of draws, which covers every sequence the generator can produce (and more,
 * since its seed is finite). Nothing is claimed about uniformity.
 */
module Shuffling {

  function Swap<T>(s: seq<T>, i: nat, j: nat): (r: seq<T>)
    requires i < |s| && j < |s|
    ensures |r| == |s|
    ensures multiset(r) == multiset(s)
  {
    s[i := s[j]][j := s[i]]
  }

  /** The next draw of `random.nextInt(bound)`, taken from the front of `draws`. */
  function Draw(draws: seq<nat>, bound: nat): (j: nat)
    requires bound > 0
    ensures j < bound
  {
    if |draws| == 0 then 0 else draws[0] % bound
  }

  /** The shuffle loop from position `i` downwards. */
  function ShuffleFrom<T>(s: seq<T>, i: nat, draws: seq<nat>): (r: seq<T>)
    requires i <= |s|
    ensures |r| == |s|
    ensures multiset(r) == multiset(s)
    decreases i
  {
    if i <= 1 then s
    else
      var rest := if |draws| == 0 then [] else draws[1..];
      ShuffleFrom(Swap(s, i - 1, Draw(draws, i)), i - 1, rest)
  }

  /** `Collections.shuffle(list)`: the same elements, none duplicated or dropped, in a new order. */
  function Shuffle<T>(s: seq<T>, draws: seq<nat>): (r: seq<T>)
    ensures |r| == |s|
    ensures multiset(r) == multiset(s)
  {
    ShuffleFrom(s, |s|, draws)
  }

  /** Every element of a shuffled sequence was in the original, and vice versa. */
  lemma ShuffleKeepsMembers<T>(s: seq<T>, draws: seq<nat>)
    ensures forall x :: x in Shuffle(s, draws) <==> x in s
  {
    var r := Shuffle(s, draws);
    forall x
      ensures x in r <==> x in s
    {
      assert x in r <==> x in multiset(r);
      assert x in s <==> x in multiset(s);
    }
  }
}
