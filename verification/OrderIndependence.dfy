/** The learned rules depend on which words the corpus holds, not on the order they come in. */
module OrderIndependence {
  import opened Merging
  import opened PairCounting
  import opened MergeLearning

  lemma SplitOff<T>(a: seq<T>, b: seq<T>) returns (i: nat)
    requires a != [] && multiset(a) == multiset(b)
    ensures i < |b| && b == b[..i] + [a[0]] + b[i + 1..]
    ensures multiset(a[1..]) == multiset(b[..i] + b[i + 1..])
  {
    assert a[0] in multiset(a);
    i :| 0 <= i < |b| && b[i] == a[0];
    assert b == b[..i] + [a[0]] + b[i + 1..];
    assert a == [] + [a[0]] + a[1..] && [] + a[1..] == a[1..];
    Without([], a[0], a[1..]);
    Without(b[..i], a[0], b[i + 1..]);
  }

  lemma Without<T>(before: seq<T>, x: T, behind: seq<T>)
    ensures multiset(before + behind) == multiset(before + [x] + behind) - multiset{x}
  {
  }

  lemma {:induction false} PairCountsPermutes(a: seq<Word>, b: seq<Word>)
    requires multiset(a) == multiset(b)
    ensures PairCounts(a) == PairCounts(b)
    decreases a
  {
    if a == [] {
      assert b == [] by { assert |multiset(b)| == 0; }
    } else {
      var i := SplitOff(a, b);
      PairCountsPermutes(a[1..], b[..i] + b[i + 1..]);
      PairCountsAppend(b[..i], b[i + 1..]);
      PairCountsAppend(b[..i] + [a[0]], b[i + 1..]);
      PairCountsAppend(b[..i], [a[0]]);
      assert PairCounts([a[0]]) == WordPairs(a[0]) + PairCounts([a[0]][1..]);
    }
  }

  lemma {:induction false} MergeAllPermutes(a: seq<Word>, b: seq<Word>, p: Pair)
    requires multiset(a) == multiset(b)
    ensures multiset(MergeAll(a, p)) == multiset(MergeAll(b, p))
    decreases a
  {
    if a == [] {
      assert b == [] by { assert |multiset(b)| == 0; }
    } else {
      var i := SplitOff(a, b);
      MergeAllPermutes(a[1..], b[..i] + b[i + 1..], p);
      var x := MergePass(a[0], p);
      assert MergeAll(a, p) == [x] + MergeAll(a[1..], p);
      assert MergeAll(b[..i] + b[i + 1..], p) == MergeAll(b[..i], p) + MergeAll(b[i + 1..], p);
      assert MergeAll(b, p) == MergeAll(b[..i], p) + [x] + MergeAll(b[i + 1..], p);
    }
  }

  /** Permuted words, same number of rounds: the same list of rules, and the same segmentations. */
  lemma {:induction false} LearnPermutes(a: seq<Word>, b: seq<Word>, n: nat)
    requires multiset(a) == multiset(b)
    ensures Learn(a, n).merges == Learn(b, n).merges
    ensures multiset(Learn(a, n).words) == multiset(Learn(b, n).words)
    decreases n
  {
    PairCountsPermutes(a, b);
    hide PairCounts;
    if n == 0 || PairCounts(a) == multiset{} {
    } else {
      BestUnique(PairCounts(a), BestPair(a), BestPair(b));
      hide IsBest;
      MergeAllPermutes(a, b, BestPair(a));
      hide MergeAll;
      LearnPermutes(MergeAll(a, BestPair(a)), MergeAll(b, BestPair(b)), n - 1);
    }
  }
}
