/** Facts about sequences without repeated elements, shared by the deck selection and
    the card bookkeeping. */
module Sequences {

  /** No element occurs twice. */
  predicate Distinct<T(==)>(s: seq<T>) {
    forall i, j :: 0 <= i < j < |s| ==> s[i] != s[j]
  }

  /** The set of elements of a sequence. */
  function Elements<T>(s: seq<T>): set<T> {
    set x | x in s
  }

  /** A sequence without repeats has as many elements as its set. */
  lemma {:induction false} DistinctCardinality<T>(s: seq<T>)
    requires Distinct(s)
    ensures |Elements(s)| == |s|
  {
    if s != [] {
      var t := s[..|s| - 1];
      assert Distinct(t);
      DistinctCardinality(t);
      assert s == t + [s[|s| - 1]];
      assert s[|s| - 1] !in Elements(t);
      assert Elements(s) == Elements(t) + {s[|s| - 1]};
    }
  }

  /** Every prefix of a sequence without repeats is without repeats. */
  lemma DistinctPrefix<T>(s: seq<T>, n: nat)
    requires Distinct(s) && n <= |s|
    ensures Distinct(s[..n])
  {
  }

  /** A permutation of a sequence without repeats has no repeats either. */
  lemma DistinctPermutation<T>(s: seq<T>, t: seq<T>)
    requires Distinct(s) && multiset(t) == multiset(s)
    ensures Distinct(t)
  {
    forall i, j | 0 <= i < j < |t| ensures t[i] != t[j] {
      if t[i] == t[j] {
        var x := t[i];
        assert multiset(t)[x] >= 2 by {
          assert t == t[..j] + t[j..];
          assert x in multiset(t[..j]) by { assert t[..j][i] == x; }
          assert x in multiset(t[j..]) by { assert t[j..][0] == x; }
          assert multiset(t) == multiset(t[..j]) + multiset(t[j..]);
        }
        MultiplicityOfDistinct(s, x);
        assert false;
      }
    }
  }

  /** In a sequence without repeats every element occurs at most once. */
  lemma {:induction false} MultiplicityOfDistinct<T>(s: seq<T>, x: T)
    requires Distinct(s)
    ensures multiset(s)[x] <= 1
  {
    if s != [] {
      var t := s[..|s| - 1];
      assert Distinct(t);
      MultiplicityOfDistinct(t, x);
      assert s == t + [s[|s| - 1]];
      assert multiset(s) == multiset(t) + multiset{s[|s| - 1]};
      if s[|s| - 1] == x {
        assert x !in t;
        assert multiset(t)[x] == 0;
      }
    }
  }

  /** n distinct numbers below n are all the numbers below n. */
  lemma DistinctBelowCoversRange(ids: seq<nat>, n: nat)
    requires |ids| == n && Distinct(ids)
    requires forall k :: 0 <= k < |ids| ==> ids[k] < n
    ensures forall j :: 0 <= j < n ==> j in ids
  {
    DistinctCardinality(ids);
    assert Elements(ids) <= Below(n);
    SubsetOfEqualSize(Elements(ids), Below(n));
    forall j | 0 <= j < n ensures j in ids {
      assert j in Below(n);
      assert j in Elements(ids);
    }
  }

  /** Distinct numbers below n that miss one of them are fewer than n. */
  lemma DistinctBelowMissing(ids: seq<nat>, n: nat, i: nat)
    requires Distinct(ids) && i < n && i !in ids
    requires forall k :: 0 <= k < |ids| ==> ids[k] < n
    ensures |ids| < n
  {
    DistinctCardinality(ids);
    assert Elements(ids) <= Below(n) - {i};
    SubsetCardinality(Elements(ids), Below(n) - {i});
  }

  /** The numbers below n. */
  function Below(n: nat): (r: set<nat>)
    ensures |r| == n
    ensures forall j: nat :: j in r <==> j < n
  {
    if n == 0 then {} else Below(n - 1) + {n - 1}
  }

  /** A subset is no larger than its superset. */
  lemma {:induction false} SubsetCardinality<T>(a: set<T>, b: set<T>)
    requires a <= b
    ensures |a| <= |b|
    decreases a
  {
    if a != {} {
      var y :| y in a;
      SubsetCardinality(a - {y}, b - {y});
    }
  }

  /** A subset as large as its superset is the superset. */
  lemma SubsetOfEqualSize<T>(a: set<T>, b: set<T>)
    requires a <= b && |a| == |b|
    ensures a == b
  {
    if a != b {
      var x :| x in b && x !in a;
      SubsetCardinality(a, b - {x});
    }
  }
}
