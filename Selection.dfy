/** Deck selection: the catalog is deduplicated as a JavaScript Set does (first
    occurrences, in order), a catalog with fewer unique names than the deck size is a
    fatal error, and otherwise the unique names are shuffled and the first ones taken. */
module Selection {
  import opened Wrappers
  import opened Sequences
  import opened Shuffle
  import Settings

  /** availableImageFiles. */
  const AvailableImageFiles: seq<string> := [
    "1.jpg", "10.jpg", "11.jpg", "12.jpg", "13.jpg", "14.jpg", "15.jpg",
    "17.jpg", "21.jpg", "22.jpg", "23.jpg", "24.jpg", "25.jpg",
    "27.jpg", "28.jpg", "29.jpg", "3.jpg", "30.jpg", "31.jpg", "32.jpg",
    "33.jpg", "35.jpg", "36.jpg", "37.jpg", "38.jpg", "40.jpg",
    "41.jpg", "42.jpg", "43.jpg", "44.JPEG", "45.JPEG", "46.JPEG", "47.JPEG",
    "6.jpg", "9.jpg"
  ]

  /** The error thrown when the catalog holds too few unique names. */
  datatype SelectionError = InsufficientUniqueImages(unique: nat, needed: nat)

  /** [...new Set(s)]: the first occurrence of each name, in catalog order. */
  function Dedup(s: seq<string>): (u: seq<string>)
    ensures Distinct(u)
    ensures Elements(u) == Elements(s)
    ensures |u| <= |s|
    ensures forall x :: x in u <==> x in s
  {
    if |s| == 0 then []
    else
      var rest := Dedup(s[..|s| - 1]);
      var x := s[|s| - 1];
      assert forall y :: y in s <==> y in s[..|s| - 1] || y == x by {
        assert s == s[..|s| - 1] + [x];
      }
      if x in rest then rest else rest + [x]
  }

  /** A catalog already without repeats is left as it is. */
  lemma {:induction false} DedupOfDistinct(s: seq<string>)
    requires Distinct(s)
    ensures Dedup(s) == s
  {
    if |s| > 0 {
      assert Distinct(s[..|s| - 1]);
      DedupOfDistinct(s[..|s| - 1]);
      assert s[|s| - 1] !in s[..|s| - 1];
    }
  }

  /** The deduplicated catalog has one entry per distinct name. */
  lemma DedupLength(s: seq<string>)
    ensures |Dedup(s)| == |Elements(s)|
  {
    DistinctCardinality(Dedup(s));
  }

  /** The first n entries of a rearrangement of a sequence without repeats are n
      different entries of it, and all of it when n is its length. */
  lemma PrefixOfPermutation(unique: seq<string>, shuffled: seq<string>, n: nat)
    requires Distinct(unique) && multiset(shuffled) == multiset(unique) && n <= |shuffled|
    ensures Distinct(shuffled[..n])
    ensures forall k :: 0 <= k < n ==> shuffled[..n][k] in unique
    ensures n == |unique| ==> Elements(shuffled[..n]) == Elements(unique)
  {
    DistinctPermutation(unique, shuffled);
    DistinctPrefix(shuffled, n);
    assert forall k :: 0 <= k < n ==> shuffled[k] in multiset(unique);
    assert |shuffled| == |multiset(unique)| == |unique|;
    assert n == |unique| ==> shuffled[..n] == shuffled;
    assert forall x :: x in shuffled <==> x in multiset(unique);
  }

  /** The selection as a value: the first n names of the shuffled unique catalog, or the
      fatal error when the catalog has fewer than n unique names. */
  function Select(catalog: seq<string>, n: nat, draws: seq<real>): (r: Result<seq<string>, SelectionError>)
    requires EnoughDraws(|catalog|, draws)
    ensures r.Failure? <==> |Elements(catalog)| < n
    ensures r.Failure? ==> r.error == InsufficientUniqueImages(|Elements(catalog)|, n)
    ensures r.Success? ==> |r.value| == n && Distinct(r.value)
    ensures r.Success? ==> forall k :: 0 <= k < n ==> r.value[k] in catalog
    ensures r.Success? && |Elements(catalog)| == n ==> Elements(r.value) == Elements(catalog)
  {
    var unique := Dedup(catalog);
    DedupLength(catalog);
    if |unique| < n then Failure(InsufficientUniqueImages(|unique|, n))
    else
      var shuffled := Shuffled(unique, draws);
      ShuffledPermutes(unique, draws);
      PrefixOfPermutation(unique, shuffled, n);
      Success(shuffled[..n])
  }

  /** script.js's selection statements: deduplicate, fail, shuffle the unique names in
      place with shuffleArray and slice off the first n. */
  method SelectImageFiles(catalog: seq<string>, n: nat, draws: seq<real>)
    returns (r: Result<seq<string>, SelectionError>)
    requires EnoughDraws(|catalog|, draws)
    ensures r == Select(catalog, n, draws)
  {
    var unique := Dedup(catalog);
    if |unique| < n {
      DedupLength(catalog);
      return Failure(InsufficientUniqueImages(|unique|, n));
    }
    var buffer := new string[|unique|](k requires 0 <= k < |unique| => unique[k]);
    assert buffer[..] == unique;
    var shuffled := ShuffleArray(buffer, draws);
    DedupLength(catalog);
    r := Success(shuffled[..n]);
  }

  /** The shipped catalog is large enough: selection never fails on it. */
  lemma AvailableCatalogSuffices(draws: seq<real>)
    requires EnoughDraws(|AvailableImageFiles|, draws)
    ensures Select(AvailableImageFiles, Settings.NumberOfCards, draws).Success?
  {
    var first := AvailableImageFiles[..Settings.NumberOfCards];
    assert first == ["1.jpg", "10.jpg", "11.jpg", "12.jpg", "13.jpg", "14.jpg"];
    assert Distinct(first);
    DistinctCardinality(first);
    SubsetCardinality(Elements(first), Elements(AvailableImageFiles));
  }
}
