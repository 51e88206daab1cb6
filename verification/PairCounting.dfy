/** Counting neighbouring token pairs and choosing the pair to merge next. */
module PairCounting {
  import opened Bytes
  import opened Sequences
  import opened Occurrences
  import opened Merging

  function WordPairs(ts: Word): multiset<Pair> {
    if |ts| < 2 then multiset{} else multiset{(ts[0], ts[1])} + WordPairs(ts[1..])
  }

  function PairCounts(words: seq<Word>): multiset<Pair> {
    if words == [] then multiset{} else WordPairs(words[0]) + PairCounts(words[1..])
  }

  /** `operator<` on pairs of strings. */
  predicate PairBefore(p: Pair, q: Pair) {
    Before(p.0, q.0) || (p.0 == q.0 && Before(p.1, q.1))
  }

  /** The order in which pairs are preferred: more frequent first, then lexicographically smaller. */
  predicate Preferred(counts: multiset<Pair>, p: Pair, q: Pair) {
    counts[p] > counts[q] || (counts[p] == counts[q] && PairBefore(p, q))
  }

  ghost predicate IsBest(counts: multiset<Pair>, p: Pair) {
    p in counts && forall q | q in counts && q != p :: Preferred(counts, p, q)
  }

  // ----------------------------------------------------- the order is total

  lemma PreferredTotal(counts: multiset<Pair>, p: Pair, q: Pair)
    ensures Preferred(counts, p, q) || Preferred(counts, q, p) || p == q
  {
    BeforeTotal(p.0, q.0);
    BeforeTotal(p.1, q.1);
  }

  lemma PreferredTransitive(counts: multiset<Pair>, p: Pair, q: Pair, r: Pair)
    requires Preferred(counts, p, q) && Preferred(counts, q, r)
    ensures Preferred(counts, p, r)
  {
    if Before(p.0, q.0) && Before(q.0, r.0) {
      BeforeTransitive(p.0, q.0, r.0);
    }
    if Before(p.1, q.1) && Before(q.1, r.1) {
      BeforeTransitive(p.1, q.1, r.1);
    }
  }

  lemma PreferredIrreflexive(counts: multiset<Pair>, p: Pair)
    ensures !Preferred(counts, p, p)
  {
    BeforeIrreflexive(p.0);
    BeforeIrreflexive(p.1);
  }

  /** The best pair is unique, so no iteration order of the hash table can change it. */
  lemma BestUnique(counts: multiset<Pair>, p: Pair, q: Pair)
    requires IsBest(counts, p) && IsBest(counts, q)
    ensures p == q
  {
    if p != q {
      PreferredTransitive(counts, p, q, p);
      PreferredIrreflexive(counts, p);
    }
  }

  lemma BestAmong(counts: multiset<Pair>, s: set<Pair>) returns (p: Pair)
    requires s != {}
    ensures p in s && forall q | q in s && q != p :: Preferred(counts, p, q)
  {
    p :| p in s;
    if s == {p} {
    } else {
      var r := BestAmong(counts, s - {p});
      PreferredTotal(counts, p, r);
      forall q | q in s && q != p && q != r && Preferred(counts, p, r) ensures Preferred(counts, p, q) {
        PreferredTransitive(counts, p, r, q);
      }
      if !Preferred(counts, p, r) {
        p := r;
      }
    }
  }

  lemma BestExists(counts: multiset<Pair>)
    requires counts != multiset{}
    ensures exists p :: IsBest(counts, p)
  {
    var any :| any in counts;
    var keys := set p | p in counts;
    assert any in keys;
    var p := BestAmong(counts, keys);
    assert IsBest(counts, p);
  }

  // ------------------------------------------- what the counts say of the words

  lemma {:induction false} WordPairsAdjacent(ts: Word, p: Pair)
    ensures p in WordPairs(ts) <==> Adjacent(ts, p)
  {
    if |ts| < 2 {
    } else {
      WordPairsAdjacent(ts[1..], p);
      if Adjacent(ts[1..], p) {
        var i: nat :| AdjacentAt(ts[1..], p, i);
        assert AdjacentAt(ts, p, i + 1);
      }
      if p == (ts[0], ts[1]) {
        assert AdjacentAt(ts, p, 0);
      }
      if Adjacent(ts, p) {
        var i: nat :| AdjacentAt(ts, p, i);
        assert i > 0 ==> AdjacentAt(ts[1..], p, i - 1);
      }
    }
  }

  lemma {:induction false} PairCountsAdjacent(words: seq<Word>, p: Pair)
    ensures p in PairCounts(words) <==> exists i | 0 <= i < |words| :: Adjacent(words[i], p)
  {
    if words == [] {
    } else {
      WordPairsAdjacent(words[0], p);
      PairCountsAdjacent(words[1..], p);
      if i :| 0 <= i < |words[1..]| && Adjacent(words[1..][i], p) {
        assert Adjacent(words[i + 1], p);
      }
      if i :| 0 < i < |words| && Adjacent(words[i], p) {
        assert Adjacent(words[1..][i - 1], p);
      }
    }
  }

  /** Where the two tokens of `p` stand side by side: the word and the position in it. */
  function PairPlaces(words: seq<Word>, p: Pair): set<(int, int)> {
    set i, j | 0 <= i < |words| && 0 <= j < |words[i]| && AdjacentAt(words[i], p, j) :: (i, j)
  }

  /** The neighbours of each word. */
  function Neighbours(ts: Word): seq<Pair> {
    seq(if |ts| < 2 then 0 else |ts| - 1, i requires 0 <= i < |ts| - 1 => (ts[i], ts[i + 1]))
  }

  function AllNeighbours(words: seq<Word>): seq<seq<Pair>> {
    seq(|words|, i requires 0 <= i < |words| => Neighbours(words[i]))
  }

  lemma {:induction false} WordPairsNeighbours(ts: Word)
    ensures WordPairs(ts) == multiset(Neighbours(ts))
  {
    if |ts| < 2 {
      assert Neighbours(ts) == [];
    } else {
      WordPairsNeighbours(ts[1..]);
      assert Neighbours(ts) == [(ts[0], ts[1])] + Neighbours(ts[1..]);
    }
  }

  lemma {:induction false} PairCountsNeighbours(words: seq<Word>)
    ensures PairCounts(words) == multiset(Flatten(AllNeighbours(words)))
  {
    hide WordPairs, Neighbours;
    if words == [] {
    } else {
      WordPairsNeighbours(words[0]);
      PairCountsNeighbours(words[1..]);
      assert AllNeighbours(words)[1..] == AllNeighbours(words[1..]);
    }
  }

  /** A pair is counted once for each place where it stands. */
  lemma PairCountsPlaces(words: seq<Word>, p: Pair)
    ensures PairCounts(words)[p] == |PairPlaces(words, p)|
  {
    PairCountsNeighbours(words);
    PlacesCount(AllNeighbours(words), p);
    hide PairCounts, Flatten;
    assert PairPlaces(words, p) == Places(AllNeighbours(words), p);
  }

  /** `p` stands in more places than any other pair, or in as many as some that are all lexicographically greater. */
  ghost predicate MostFrequent(words: seq<Word>, p: Pair) {
    && PairPlaces(words, p) != {}
    && forall q: Pair | q != p ::
         || |PairPlaces(words, q)| < |PairPlaces(words, p)|
         || (|PairPlaces(words, q)| == |PairPlaces(words, p)| && PairBefore(p, q))
  }

  lemma BestIsMostFrequent(words: seq<Word>, p: Pair)
    ensures IsBest(PairCounts(words), p) <==> MostFrequent(words, p)
  {
    var counts := PairCounts(words);
    forall q ensures counts[q] == |PairPlaces(words, q)| {
      PairCountsPlaces(words, q);
    }
    hide PairCounts, PairPlaces, PairBefore;
  }

  /** Nothing is left to count exactly when every word is a single token (or none). */
  lemma {:induction false} NoPairsLeft(words: seq<Word>)
    ensures PairCounts(words) == multiset{} <==> forall i | 0 <= i < |words| :: |words[i]| <= 1
  {
    if words == [] {
    } else {
      NoPairsLeft(words[1..]);
      assert WordPairs(words[0]) == multiset{} <==> |words[0]| <= 1 by {
        if |words[0]| > 1 {
          assert (words[0][0], words[0][1]) in WordPairs(words[0]);
        }
      }
      assert PairCounts(words) == multiset{} <==> WordPairs(words[0]) == multiset{} && PairCounts(words[1..]) == multiset{} by {
        if p :| p in PairCounts(words[1..]) { assert p in PairCounts(words); }
        if p :| p in WordPairs(words[0]) { assert p in PairCounts(words); }
      }
      assert forall i | 0 < i < |words| :: words[i] == words[1..][i - 1];
    }
  }

  lemma {:induction false} PairCountsAppend(a: seq<Word>, b: seq<Word>)
    ensures PairCounts(a + b) == PairCounts(a) + PairCounts(b)
  {
    if a == [] {
      assert a + b == b;
    } else {
      assert (a + b)[1..] == a[1..] + b;
      PairCountsAppend(a[1..], b);
    }
  }

  /** All tokens of all words non-empty, so an empty first token can only mean that no pair is left. */
  ghost predicate NoEmptyTokens(words: seq<Word>) {
    forall i | 0 <= i < |words| :: NonEmptyTokens(words[i])
  }

  lemma BestIsProper(words: seq<Word>, p: Pair)
    requires NoEmptyTokens(words) && p in PairCounts(words)
    ensures Proper(p)
  {
    PairCountsAdjacent(words, p);
    var k :| 0 <= k < |words| && Adjacent(words[k], p);
    var at: nat :| AdjacentAt(words[k], p, at);
    assert words[k][at] != [] && words[k][at + 1] != [];
  }

  // ------------------------------------------------------------ the methods

  /** `counts` is the hash table of the multiset `m`. */
  ghost predicate Counted(counts: map<Pair, int>, m: multiset<Pair>) {
    (forall p :: p in counts <==> p in m) && (forall p | p in counts :: counts[p] == m[p])
  }

  lemma CountedMore(counts: map<Pair, int>, m: multiset<Pair>, p: Pair)
    requires Counted(counts, m)
    ensures Counted(counts[p := (if p in counts then counts[p] else 0) + 1], m + multiset{p})
  {
  }

  lemma PairsStep(tokens: Word, i: nat, seen: multiset<Pair>)
    requires i + 1 < |tokens|
    ensures seen + WordPairs(tokens[i..]) == seen + multiset{(tokens[i], tokens[i + 1])} + WordPairs(tokens[i + 1..])
  {
    assert tokens[i..][1..] == tokens[i + 1..];
  }

  lemma PairsEnd(tokens: Word, i: nat, seen: multiset<Pair>)
    requires i <= |tokens| <= i + 1
    ensures seen + WordPairs(tokens[i..]) == seen
  {
  }

  method CountWord(counts: map<Pair, int>, tokens: Word, ghost m: multiset<Pair>) returns (counts': map<Pair, int>)
    requires Counted(counts, m)
    ensures Counted(counts', m + WordPairs(tokens))
  {
    hide *;
    counts' := counts;
    ghost var seen := m;
    assert tokens[0..] == tokens;
    var i := 0;
    while i + 1 < |tokens|
      invariant 0 <= i && (i < |tokens| || i == 0)
      invariant Counted(counts', seen)
      invariant seen + WordPairs(tokens[i..]) == m + WordPairs(tokens)
    {
      var p := (tokens[i], tokens[i + 1]);
      PairsStep(tokens, i, seen);
      CountedMore(counts', seen, p);
      seen := seen + multiset{p};
      counts' := counts'[p := (if p in counts' then counts'[p] else 0) + 1];
      i := i + 1;
    }
    PairsEnd(tokens, i, seen);
  }

  method GetMostFrequentPair(words: seq<Word>) returns (best: Pair)
    ensures PairCounts(words) == multiset{} ==> best == ([], [])
    ensures PairCounts(words) != multiset{} ==> IsBest(PairCounts(words), best) && MostFrequent(words, best)
    ensures NoEmptyTokens(words) ==> (best.0 == [] <==> PairCounts(words) == multiset{})
  {
    var counts: map<Pair, int> := map[];
    ghost var seen: multiset<Pair> := multiset{};
    assert words[0..] == words;
    var w := 0;
    while w < |words|
      invariant 0 <= w <= |words|
      invariant Counted(counts, seen)
      invariant seen + PairCounts(words[w..]) == PairCounts(words)
    {
      assert words[w..][1..] == words[w + 1..];
      counts := CountWord(counts, words[w], seen);
      seen := seen + WordPairs(words[w]);
      w := w + 1;
    }
    assert seen == PairCounts(words);
    if counts == map[] {
      assert seen == multiset{} by {
        if p :| p in seen { assert p in counts; }
      }
      return ([], []);
    }
    best := BestOf(counts, seen);
    BestIsMostFrequent(words, best);
    if NoEmptyTokens(words) {
      BestIsProper(words, best);
    }
  }

  method BestOf(counts: map<Pair, int>, ghost m: multiset<Pair>) returns (best: Pair)
    requires counts != map[] && Counted(counts, m)
    ensures IsBest(m, best)
  {
    // The hash table is walked in an order the program does not fix.
    var rest := counts.Keys;
    best :| best in rest;
    rest := rest - {best};
    while rest != {}
      invariant best in counts.Keys && rest <= counts.Keys && best !in rest
      invariant forall q | q in counts.Keys && q !in rest && q != best :: Preferred(m, best, q)
    {
      var it :| it in rest;
      rest := rest - {it};
      PreferredTotal(m, it, best);
      if counts[it] > counts[best] || (counts[it] == counts[best] && PairBefore(it, best)) {
        forall q | q in counts.Keys && q !in rest && q != it && q != best ensures Preferred(m, it, q) {
          PreferredTransitive(m, it, best, q);
        }
        best := it;
      }
    }
  }
}
