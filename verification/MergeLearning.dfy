/** Merge learning as one function of the corpus words, and what it guarantees on every corpus. */
module MergeLearning {
  import opened Bytes
  import opened Units
  import opened Merging
  import opened PairCounting

  /** The rules learned, in order, and the segmentation of every word at the end. */
  datatype Learned = Learned(merges: seq<Pair>, words: seq<Word>)

  function MergeAll(words: seq<Word>, p: Pair): seq<Word> {
    seq(|words|, i requires 0 <= i < |words| => MergePass(words[i], p))
  }

  function ReplayAll(words: seq<Word>, merges: seq<Pair>): seq<Word> {
    seq(|words|, i requires 0 <= i < |words| => Replay(words[i], merges))
  }

  ghost function BestPair(words: seq<Word>): (p: Pair)
    requires PairCounts(words) != multiset{}
    ensures IsBest(PairCounts(words), p)
  {
    BestExists(PairCounts(words));
    var p :| IsBest(PairCounts(words), p);
    p
  }

  /** Up to `n` rounds: merge the best pair everywhere, until no pair is left. */
  ghost function Learn(words: seq<Word>, n: nat): Learned
    decreases n
  {
    if n == 0 || PairCounts(words) == multiset{} then Learned([], words)
    else
      var p := BestPair(words);
      var later := Learn(MergeAll(words, p), n - 1);
      Learned([p] + later.merges, later.words)
  }

  ghost predicate UnitWords(mode: Mode, words: seq<Word>) {
    forall i | 0 <= i < |words| :: words[i] != [] && AllUnits(mode, words[i])
  }

  /** The rules were each found side by side in some word, at the time they were added. */
  ghost predicate FoundInTurn(words: seq<Word>, merges: seq<Pair>) {
    forall k | 0 <= k < |merges| :: FoundAt(words, merges[..k], merges[k])
  }

  ghost predicate FoundAt(words: seq<Word>, before: seq<Pair>, p: Pair) {
    exists i | 0 <= i < |words| :: Adjacent(Replay(words[i], before), p)
  }

  // --------------------------------------------------- replay meets training

  /** Replaying the learned rules on any corpus word gives that word's segmentation at the end of learning. */
  lemma {:induction false} ReplayAgreesWithTraining(words: seq<Word>, n: nat)
    ensures Learn(words, n).words == ReplayAll(words, Learn(words, n).merges)
    decreases n
  {
    if n == 0 || PairCounts(words) == multiset{} {
    } else {
      var p := BestPair(words);
      var next := MergeAll(words, p);
      ReplayAgreesWithTraining(next, n - 1);
      ReplayAllAfter(words, p, Learn(next, n - 1).merges);
    }
  }

  lemma ReplayAllAfter(words: seq<Word>, p: Pair, merges: seq<Pair>)
    ensures ReplayAll(words, [p] + merges) == ReplayAll(MergeAll(words, p), merges)
  {
  }

  lemma {:induction false} LearnedFoundInTurn(words: seq<Word>, n: nat)
    ensures FoundInTurn(words, Learn(words, n).merges)
    decreases n
  {
    if n == 0 || PairCounts(words) == multiset{} {
    } else {
      var p := BestPair(words);
      var next := MergeAll(words, p);
      var rest := Learn(next, n - 1).merges;
      LearnedFoundInTurn(next, n - 1);
      PairCountsAdjacent(words, p);
      var i :| 0 <= i < |words| && Adjacent(words[i], p);
      assert Adjacent(Replay(words[i], []), p);
      FoundInTurnAfter(words, p, rest);
    }
  }

  /** Each rule is the most frequent pair in the words as the rules before it leave them. */
  ghost predicate ChosenInTurn(words: seq<Word>, merges: seq<Pair>) {
    forall k | 0 <= k < |merges| :: ChosenAt(words, merges[..k], merges[k])
  }

  ghost predicate ChosenAt(words: seq<Word>, before: seq<Pair>, p: Pair) {
    MostFrequent(ReplayAll(words, before), p)
  }

  /** Every learned rule is the pair that stands in most places then, and of several the lexicographically smallest. */
  lemma {:induction false} LearnedMostFrequent(words: seq<Word>, n: nat)
    ensures ChosenInTurn(words, Learn(words, n).merges)
    decreases n
  {
    if n == 0 || PairCounts(words) == multiset{} {
    } else {
      var p := BestPair(words);
      var next := MergeAll(words, p);
      LearnedMostFrequent(next, n - 1);
      BestIsMostFrequent(words, p);
      ChosenInTurnAfter(words, p, Learn(next, n - 1).merges);
    }
  }

  lemma ChosenInTurnAfter(words: seq<Word>, p: Pair, rest: seq<Pair>)
    requires MostFrequent(words, p) && ChosenInTurn(MergeAll(words, p), rest)
    ensures ChosenInTurn(words, [p] + rest)
  {
    var merges := [p] + rest;
    ChosenFirst(words, p);
    hide MostFrequent, ChosenAt;
    forall k | 0 <= k < |merges| ensures ChosenAt(words, merges[..k], merges[k]) {
      if k == 0 {
        assert merges[..0] == [];
      } else {
        assert ChosenAt(MergeAll(words, p), rest[..k - 1], rest[k - 1]);
        ChosenLater(words, p, rest[..k - 1], rest[k - 1]);
        assert merges[..k] == [p] + rest[..k - 1];
      }
    }
  }

  lemma ChosenFirst(words: seq<Word>, p: Pair)
    requires MostFrequent(words, p)
    ensures ChosenAt(words, [], p)
  {
    hide MostFrequent;
    assert ReplayAll(words, []) == words;
  }

  lemma ChosenLater(words: seq<Word>, first: Pair, before: seq<Pair>, p: Pair)
    requires ChosenAt(MergeAll(words, first), before, p)
    ensures ChosenAt(words, [first] + before, p)
  {
    hide MostFrequent;
    ReplayAllAfter(words, first, before);
  }

  lemma FoundInTurnAfter(words: seq<Word>, p: Pair, rest: seq<Pair>)
    requires FoundAt(words, [], p)
    requires FoundInTurn(MergeAll(words, p), rest)
    ensures FoundInTurn(words, [p] + rest)
  {
    hide FoundAt;
    var merges := [p] + rest;
    forall k | 0 <= k < |merges| ensures FoundAt(words, merges[..k], merges[k]) {
      if k == 0 {
        assert merges[..0] == [];
      } else {
        assert FoundAt(MergeAll(words, p), rest[..k - 1], rest[k - 1]);
        FoundLater(words, p, rest[..k - 1], rest[k - 1]);
        assert merges[..k] == [p] + rest[..k - 1];
      }
    }
  }

  lemma FoundLater(words: seq<Word>, first: Pair, before: seq<Pair>, p: Pair)
    requires FoundAt(MergeAll(words, first), before, p)
    ensures FoundAt(words, [first] + before, p)
  {
  }

  // ------------------------------------------------- merged strings are new

  lemma AllUnitsNonEmpty(mode: Mode, w: Word)
    requires AllUnits(mode, w)
    ensures NonEmptyTokens(w)
  {
  }

  /** A pair found in a replayed word is spelled by a stretch of units that the rules turn into that pair. */
  lemma FoundSpelledByUnits(mode: Mode, words: seq<Word>, before: seq<Pair>, p: Pair) returns (us: Word)
    requires UnitWords(mode, words)
    requires FoundAt(words, before, p)
    ensures AllUnits(mode, us) && Concat(us) == Merged(p) && Replay(us, before) == [p.0, p.1]
    ensures Proper(p)
    ensures |us| >= 2
    ensures exists i, lo, hi :: 0 <= i < |words| && 0 <= lo <= hi <= |words[i]| && us == words[i][lo..hi]
  {
    var i :| 0 <= i < |words| && Adjacent(Replay(words[i], before), p);
    var j: nat :| AdjacentAt(Replay(words[i], before), p, j);
    var lo, hi := AdjacentComesFrom(words[i], before, p, j);
    us := words[i][lo..hi];
    ReplayKeepsText(us, before);
    assert [p.0, p.1][1..] == [p.1];
    assert Concat([p.0, p.1]) == p.0 + Concat([p.1]) && Concat([p.1]) == p.1 + Concat([]);
    AllUnitsNonEmpty(mode, us);
    ReplayNonEmpty(us, before);
    assert [p.0, p.1][0] == p.0 && [p.0, p.1][1] == p.1;
    if |us| == 1 {
      ReplaySingle(us, before);
    }
  }

  /** Two rules found in turn never build the same string. */
  lemma MergedStringsDistinct(mode: Mode, words: seq<Word>, merges: seq<Pair>, j: nat, k: nat)
    requires UnitWords(mode, words)
    requires FoundInTurn(words, merges)
    requires j < k < |merges|
    ensures Merged(merges[j]) != Merged(merges[k])
  {
    if Merged(merges[j]) == Merged(merges[k]) {
      var a := FoundSpelledByUnits(mode, words, merges[..j], merges[j]);
      var b := FoundSpelledByUnits(mode, words, merges[..k], merges[k]);
      UnitsUnique(mode, a, b);
      // Rule j collapses this stretch to one token, so rule k could not find two.
      CollapsedStaysWhole(a, merges, j, k);
    }
  }

  /** A merged string is never a single unit. */
  lemma MergedStringIsNoUnit(mode: Mode, words: seq<Word>, before: seq<Pair>, p: Pair)
    requires UnitWords(mode, words)
    requires FoundAt(words, before, p)
    ensures !IsUnit(mode, Merged(p))
  {
    if IsUnit(mode, Merged(p)) {
      assert Concat([Merged(p)]) == Merged(p) + Concat([]);
      var us := FoundSpelledByUnits(mode, words, before, p);
      UnitsUnique(mode, us, [Merged(p)]);
    }
  }

  /** On a fresh tokenizer no rule is recorded twice and no two rules build the same string. */
  lemma LearnedMergesDistinct(mode: Mode, words: seq<Word>, n: nat)
    requires UnitWords(mode, words)
    ensures var merges := Learn(words, n).merges;
      && (forall j, k | 0 <= j < k < |merges| :: Merged(merges[j]) != Merged(merges[k]) && merges[j] != merges[k])
      && (forall k | 0 <= k < |merges| :: Proper(merges[k]) && !IsUnit(mode, Merged(merges[k])))
  {
    var merges := Learn(words, n).merges;
    LearnedFoundInTurn(words, n);
    forall j, k | 0 <= j < k < |merges| ensures Merged(merges[j]) != Merged(merges[k]) {
      MergedStringsDistinct(mode, words, merges, j, k);
    }
    forall k | 0 <= k < |merges| ensures Proper(merges[k]) && !IsUnit(mode, Merged(merges[k])) {
      MergedStringIsNoUnit(mode, words, merges[..k], merges[k]);
      var us := FoundSpelledByUnits(mode, words, merges[..k], merges[k]);
    }
  }

  // -------------------------------------------------------------- progress

  function TotalTokens(words: seq<Word>): nat {
    if words == [] then 0 else |words[0]| + TotalTokens(words[1..])
  }

  predicate NoEmptyWord(words: seq<Word>) {
    forall i | 0 <= i < |words| :: words[i] != []
  }

  lemma {:induction false} MergeAllShortens(words: seq<Word>, p: Pair)
    ensures TotalTokens(MergeAll(words, p)) <= TotalTokens(words)
    ensures TotalTokens(MergeAll(words, p)) < TotalTokens(words) <==> p in PairCounts(words)
  {
    if words == [] {
    } else {
      MergeAllShortens(words[1..], p);
      MergePassShortens(words[0], p);
      WordPairsAdjacent(words[0], p);
      assert MergeAll(words, p)[1..] == MergeAll(words[1..], p);
    }
  }

  /** One round keeps every word's text, leaves the pair nowhere and strictly lowers the token count. */
  lemma RoundMakesProgress(words: seq<Word>)
    requires PairCounts(words) != multiset{}
    requires forall i | 0 <= i < |words| :: NonEmptyTokens(words[i])
    ensures var next := MergeAll(words, BestPair(words));
      && |next| == |words|
      && (forall i | 0 <= i < |words| :: Concat(next[i]) == Concat(words[i]) && NonEmptyTokens(next[i]))
      && BestPair(words) !in PairCounts(next)
      && TotalTokens(next) < TotalTokens(words)
  {
    var p := BestPair(words);
    var next := MergeAll(words, p);
    MergeAllShortens(words, p);
    PairCountsAdjacent(words, p);
    var k :| 0 <= k < |words| && Adjacent(words[k], p);
    var at: nat :| AdjacentAt(words[k], p, at);
    assert Proper(p) by { assert words[k][at] != [] && words[k][at + 1] != []; }
    PairCountsAdjacent(next, p);
    forall i | 0 <= i < |words|
      ensures Concat(next[i]) == Concat(words[i]) && NonEmptyTokens(next[i]) && !Adjacent(next[i], p)
    {
      MergePassKeepsText(words[i], p);
      MergePassNonEmpty(words[i], p);
      MergePassRemovesPair(words[i], p);
    }
  }

  lemma {:induction false} TotalTokensAtLeastWords(words: seq<Word>)
    requires NoEmptyWord(words)
    ensures TotalTokens(words) >= |words|
    ensures TotalTokens(words) == |words| <==> PairCounts(words) == multiset{}
  {
    NoPairsLeft(words);
    if words == [] {
    } else {
      TotalTokensAtLeastWords(words[1..]);
      NoPairsLeft(words[1..]);
      assert forall i | 0 < i < |words| :: words[i] == words[1..][i - 1];
    }
  }

  /** At most (units - words) rules; fewer than asked for only when every word has become one token. */
  lemma {:induction false} LearningIsBounded(words: seq<Word>, n: nat)
    requires NoEmptyWord(words)
    ensures var r := Learn(words, n);
      && |r.merges| <= n
      && |r.merges| + |words| <= TotalTokens(words)
      && |r.words| == |words|
      && (|r.merges| < n ==> forall i | 0 <= i < |words| :: |r.words[i]| == 1)
      && NoEmptyWord(r.words)
    decreases n
  {
    if n == 0 || PairCounts(words) == multiset{} {
      TotalTokensAtLeastWords(words);
      if PairCounts(words) == multiset{} {
        AllSingle(words);
      }
      hide NoEmptyWord, PairCounts, TotalTokens;
    } else {
      var p := BestPair(words);
      MergeAllNoEmpty(words, p);
      MergeAllShortens(words, p);
      hide NoEmptyWord, MergeAll, TotalTokens, PairCounts;
      LearningIsBounded(MergeAll(words, p), n - 1);
    }
  }

  lemma AllSingle(words: seq<Word>)
    requires NoEmptyWord(words) && PairCounts(words) == multiset{}
    ensures forall i | 0 <= i < |words| :: |words[i]| == 1
  {
    NoPairsLeft(words);
    hide PairCounts;
  }

  lemma MergeAllNoEmpty(words: seq<Word>, p: Pair)
    requires NoEmptyWord(words)
    ensures NoEmptyWord(MergeAll(words, p))
  {
  }
}
