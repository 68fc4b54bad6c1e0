/** The in-place Fisher-Yates shuffle of script.js. The random number generator is not
    modelled: the caller supplies the stream of draws, one number in [0, 1) per step, and
    the step at position i consumes draws[n - 1 - i] for an array of length n. */
module Shuffle {

  /** Every draw lies in [0, 1), as a draw of the generator does. */
  predicate UnitDraws(draws: seq<real>) {
    forall k :: 0 <= k < |draws| ==> 0.0 <= draws[k] < 1.0
  }

  /** There are enough draws for all the steps on n elements (one fewer than n). */
  predicate EnoughDraws(n: nat, draws: seq<real>) {
    UnitDraws(draws) && n <= |draws| + 1
  }

  /** The swap partner of position i: floor(r * (i + 1)), always one of 0..i. */
  function PickIndex(r: real, i: nat): (j: nat)
    requires 0.0 <= r < 1.0
    ensures j <= i
  {
    var m := (i + 1) as real;
    assert 0.0 <= r * m < m by { assert (1.0 - r) * m > 0.0; }
    (r * m).Floor
  }

  /** The sequence with positions i and j exchanged. */
  function Swap<T>(s: seq<T>, i: nat, j: nat): (t: seq<T>)
    requires i < |s| && j < |s|
    ensures |t| == |s|
    ensures t[i] == s[j] && t[j] == s[i]
    ensures forall k :: 0 <= k < |s| && k != i && k != j ==> t[k] == s[k]
  {
    s[i := s[j]][j := s[i]]
  }

  /** An exchange only rearranges the elements. */
  lemma SwapPermutes<T>(s: seq<T>, i: nat, j: nat)
    requires i < |s| && j < |s|
    ensures multiset(Swap(s, i, j)) == multiset(s)
  {
  }

  /** The outcome of the steps i, i - 1, ..., 1 of the shuffle applied to s. */
  function ShuffleFrom<T>(s: seq<T>, draws: seq<real>, i: nat): (t: seq<T>)
    requires EnoughDraws(|s|, draws) && i < |s|
    ensures |t| == |s|
    ensures forall k :: i < k < |s| ==> t[k] == s[k]
    decreases i
  {
    if i == 0 then s
    else ShuffleFrom(Swap(s, i, PickIndex(draws[|s| - 1 - i], i)), draws, i - 1)
  }

  /** The outcome of the whole shuffle: the steps |s| - 1 down to 1. */
  function Shuffled<T>(s: seq<T>, draws: seq<real>): (t: seq<T>)
    requires EnoughDraws(|s|, draws)
    ensures |t| == |s|
    ensures |s| <= 1 ==> t == s
  {
    if |s| == 0 then s else ShuffleFrom(s, draws, |s| - 1)
  }

  /** The first step settles the last position for good: it holds the element the first
      draw picks. */
  lemma ShuffledLast<T>(s: seq<T>, draws: seq<real>)
    requires EnoughDraws(|s|, draws) && |s| >= 2
    ensures Shuffled(s, draws)[|s| - 1] == s[PickIndex(draws[0], |s| - 1)]
  {
    var n := |s|;
    var first := Swap(s, n - 1, PickIndex(draws[0], n - 1));
    assert Shuffled(s, draws) == ShuffleFrom(first, draws, n - 2);
  }

  /** Any number of steps only rearranges the elements. */
  lemma {:induction false} ShuffleFromPermutes<T>(s: seq<T>, draws: seq<real>, i: nat)
    requires EnoughDraws(|s|, draws) && i < |s|
    ensures multiset(ShuffleFrom(s, draws, i)) == multiset(s)
    decreases i
  {
    if i > 0 {
      var j := PickIndex(draws[|s| - 1 - i], i);
      SwapPermutes(s, i, j);
      ShuffleFromPermutes(Swap(s, i, j), draws, i - 1);
    }
  }

  /** The shuffle is a permutation: same length, same elements, same multiplicities. */
  lemma ShuffledPermutes<T>(s: seq<T>, draws: seq<real>)
    requires EnoughDraws(|s|, draws)
    ensures |Shuffled(s, draws)| == |s| && multiset(Shuffled(s, draws)) == multiset(s)
  {
    if |s| > 0 {
      ShuffleFromPermutes(s, draws, |s| - 1);
    }
  }

  /** One step of the loop: exchanging positions i and j of before, with j the partner
      picked from the step's draw, leaves the steps i - 1 down to 1 to do. */
  lemma SwapStep<T>(before: seq<T>, after: seq<T>, draws: seq<real>, i: nat, j: nat)
    requires EnoughDraws(|before|, draws) && 0 < i < |before|
    requires j == PickIndex(draws[|before| - 1 - i], i)
    requires |after| == |before| && after[i] == before[j] && after[j] == before[i]
    requires forall k :: 0 <= k < |before| && k != i && k != j ==> after[k] == before[k]
    ensures EnoughDraws(|after|, draws)
    ensures ShuffleFrom(after, draws, i - 1) == ShuffleFrom(before, draws, i)
  {
    assert after == Swap(before, i, j);
  }

  /** shuffleArray: permutes the array in place, descending from the last index to 1, and
      returns the same array. */
  method ShuffleArray<T>(a: array<T>, draws: seq<real>) returns (r: array<T>)
    requires EnoughDraws(a.Length, draws)
    modifies a
    ensures r == a
    ensures a[..] == Shuffled(old(a[..]), draws)
    ensures multiset(a[..]) == multiset(old(a[..]))
  {
    r := a;
    if a.Length == 0 {
      return;
    }
    ghost var goal := Shuffled(a[..], draws);
    var i: nat := a.Length - 1;
    while i > 0
      invariant i < a.Length
      invariant ShuffleFrom(a[..], draws, i) == goal
    {
      var j := PickIndex(draws[a.Length - 1 - i], i);
      ghost var before := a[..];
      a[i], a[j] := a[j], a[i];
      SwapStep(before, a[..], draws, i, j);
      i := i - 1;
    }
    ShuffledPermutes(old(a[..]), draws);
  }
}
