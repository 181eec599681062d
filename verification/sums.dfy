/** Sums of a per-element weight over a sequence, and their invariance under reordering. */
module Sums {

  /** The sum of `f` over `s`, accumulated from the front as a Java for-each loop does. */
  function SumOf<T>(s: seq<T>, f: T -> nat): nat
    decreases |s|
  {
    if |s| == 0 then 0 else SumOf(s[..|s| - 1], f) + f(s[|s| - 1])
  }

  lemma {:induction false} SumOfAppend<T>(a: seq<T>, b: seq<T>, f: T -> nat)
    ensures SumOf(a + b, f) == SumOf(a, f) + SumOf(b, f)
    decreases |b|
  {
    if |b| == 0 {
      assert a + b == a;
    } else {
      var b' := b[..|b| - 1];
      assert (a + b)[..|a + b| - 1] == a + b';
      SumOfAppend(a, b', f);
    }
  }

  /** A prefix never weighs more than the whole sequence. */
  lemma SumOfPrefix<T>(s: seq<T>, n: nat, f: T -> nat)
    requires n <= |s|
    ensures SumOf(s[..n], f) <= SumOf(s, f)
  {
    assert s == s[..n] + s[n..];
    SumOfAppend(s[..n], s[n..], f);
  }

  /** Reordering a sequence does not change its sum. */
  lemma {:induction false} SumOfPermutation<T>(a: seq<T>, b: seq<T>, f: T -> nat)
    requires multiset(a) == multiset(b)
    ensures SumOf(a, f) == SumOf(b, f)
    decreases |a|
  {
    if |a| == 0 {
      assert |b| == |multiset(b)| == 0;
    } else {
      var x := a[|a| - 1];
      var a' := a[..|a| - 1];
      assert a == a' + [x];
      assert x in multiset(b);
      var j :| 0 <= j < |b| && b[j] == x;
      var b' := b[..j] + b[j + 1..];
      assert b == b[..j] + [x] + b[j + 1..];
      calc {
        multiset(b');
        multiset(b[..j]) + multiset(b[j + 1..]);
        multiset(b) - multiset{x};
        multiset(a) - multiset{x};
        multiset(a');
      }
      SumOfPermutation(a', b', f);
      SumOfAppend(b[..j] + [x], b[j + 1..], f);
      SumOfAppend(b[..j], [x], f);
      SumOfAppend(b[..j], b[j + 1..], f);
      assert SumOf([x], f) == f(x) by {
        assert [x][..0] == [];
      }
    }
  }

  /** Sequences whose elements weigh the same position by position have the same sum. */
  lemma {:induction false} SumOfPointwise<T>(a: seq<T>, b: seq<T>, f: T -> nat)
    requires |a| == |b|
    requires forall i :: 0 <= i < |a| ==> f(a[i]) == f(b[i])
    ensures SumOf(a, f) == SumOf(b, f)
    decreases |a|
  {
    if |a| > 0 {
      SumOfPointwise(a[..|a| - 1], b[..|b| - 1], f);
    }
  }
}
