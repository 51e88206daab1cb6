/**
 * One merge pass over a token list, the replay of a list of merge rules, and why both factor across
 * every token boundary that survives them.
 */
module Merging {
  import opened Bytes

  /** A merge rule: two neighbouring tokens that become one. */
  type Pair = (Str, Str)
  type Word = seq<Str>

  function Merged(p: Pair): Str {
    p.0 + p.1
  }

  predicate Proper(p: Pair) {
    p.0 != [] && p.1 != []
  }

  /** Replace the occurrences of `p`, leftmost first, each token used once. */
  function MergePass(ts: Word, p: Pair): Word {
    if |ts| >= 2 && ts[0] == p.0 && ts[1] == p.1 then [Merged(p)] + MergePass(ts[2..], p)
    else if ts == [] then []
    else [ts[0]] + MergePass(ts[1..], p)
  }

  /** Apply the rules in the order they were learned. */
  function Replay(ts: Word, merges: seq<Pair>): Word
    decreases merges
  {
    if merges == [] then ts else Replay(MergePass(ts, merges[0]), merges[1..])
  }

  predicate AdjacentAt(ts: Word, p: Pair, i: nat) {
    i + 1 < |ts| && ts[i] == p.0 && ts[i + 1] == p.1
  }

  ghost predicate Adjacent(ts: Word, p: Pair) {
    exists i: nat :: AdjacentAt(ts, p, i)
  }

  predicate NonEmptyTokens(ts: Word) {
    forall i | 0 <= i < |ts| :: ts[i] != []
  }

  // ---------------------------------------------------------------- one pass

  lemma {:induction false} MergePassKeepsText(ts: Word, p: Pair)
    ensures Concat(MergePass(ts, p)) == Concat(ts)
  {
    if ts == [] {
    } else if |ts| >= 2 && ts[0] == p.0 && ts[1] == p.1 {
      MergePassKeepsText(ts[2..], p);
      assert ts[1..][1..] == ts[2..];
    } else {
      MergePassKeepsText(ts[1..], p);
    }
  }

  lemma {:induction false} MergePassNonEmpty(ts: Word, p: Pair)
    requires NonEmptyTokens(ts)
    ensures NonEmptyTokens(MergePass(ts, p))
  {
    if ts == [] {
    } else if |ts| >= 2 && ts[0] == p.0 && ts[1] == p.1 {
      MergePassNonEmpty(ts[2..], p);
    } else {
      MergePassNonEmpty(ts[1..], p);
    }
  }

  /** The pass in one equation: it rewrites the first occurrence and goes on behind it. */
  lemma {:induction false} MergePassLeftmost(ts: Word, p: Pair, i: nat)
    requires AdjacentAt(ts, p, i)
    requires forall j: nat | j < i :: !AdjacentAt(ts, p, j)
    ensures MergePass(ts, p) == ts[..i] + [Merged(p)] + MergePass(ts[i + 2..], p)
  {
    if i == 0 {
    } else {
      assert !AdjacentAt(ts, p, 0);
      forall j: nat | j < i - 1 ensures !AdjacentAt(ts[1..], p, j) {
        assert !AdjacentAt(ts, p, j + 1);
      }
      MergePassLeftmost(ts[1..], p, i - 1);
      assert ts[1..][i + 1..] == ts[i + 2..];
      assert ts[..i] == [ts[0]] + ts[1..][..i - 1];
    }
  }

  lemma {:induction false} MergePassWithoutPair(ts: Word, p: Pair)
    requires !Adjacent(ts, p)
    ensures MergePass(ts, p) == ts
  {
    if ts == [] {
    } else {
      assert !AdjacentAt(ts, p, 0);
      forall j: nat ensures !AdjacentAt(ts[1..], p, j) {
        assert !AdjacentAt(ts, p, j + 1);
      }
      MergePassWithoutPair(ts[1..], p);
    }
  }

  /** A pass shortens the list exactly when the pair occurs in it. */
  lemma {:induction false} MergePassShortens(ts: Word, p: Pair)
    ensures |MergePass(ts, p)| <= |ts|
    ensures |MergePass(ts, p)| < |ts| <==> Adjacent(ts, p)
  {
    if ts == [] {
    } else if |ts| >= 2 && ts[0] == p.0 && ts[1] == p.1 {
      MergePassShortens(ts[2..], p);
      assert AdjacentAt(ts, p, 0);
    } else {
      MergePassShortens(ts[1..], p);
      if Adjacent(ts[1..], p) {
        var i: nat :| AdjacentAt(ts[1..], p, i);
        assert AdjacentAt(ts, p, i + 1);
      }
      if Adjacent(ts, p) {
        var i: nat :| AdjacentAt(ts, p, i);
        assert AdjacentAt(ts[1..], p, i - 1);
      }
    }
  }

  /** After the pass no occurrence of the merged pair is left. */
  lemma {:induction false} MergePassRemovesPair(ts: Word, p: Pair)
    requires Proper(p)
    ensures !Adjacent(MergePass(ts, p), p)
  {
    var out := MergePass(ts, p);
    if ts == [] {
    } else if |ts| >= 2 && ts[0] == p.0 && ts[1] == p.1 {
      MergePassRemovesPair(ts[2..], p);
      forall i: nat ensures !AdjacentAt(out, p, i) {
        assert i > 0 ==> !AdjacentAt(out[1..], p, i - 1);
        assert |Merged(p)| > |p.0|;
      }
    } else {
      MergePassRemovesPair(ts[1..], p);
      forall i: nat ensures !AdjacentAt(out, p, i) {
        assert i > 0 ==> !AdjacentAt(out[1..], p, i - 1);
        if i == 0 && |out| > 1 {
          MergePassHead(ts[1..], p);
        }
      }
    }
  }

  /** The first token of a pass is the first token given, or the merged one. */
  lemma MergePassHead(ts: Word, p: Pair)
    requires ts != [] && Proper(p)
    ensures MergePass(ts, p) != []
    ensures MergePass(ts, p)[0] == ts[0] || MergePass(ts, p)[0] == Merged(p)
    ensures MergePass(ts, p)[0] == p.1 ==> ts[0] == p.1
  {
  }

  /** A pass factors across every boundary of its result: the two halves come from two halves of the input. */
  lemma {:induction false} MergePassSplits(ts: Word, p: Pair, left: Word, right: Word) returns (n: nat)
    requires MergePass(ts, p) == left + right
    ensures n <= |ts| && MergePass(ts[..n], p) == left && MergePass(ts[n..], p) == right
  {
    if left == [] {
      n := 0;
      assert ts[0..] == ts && left + right == right;
    } else {
      var w := HeadWidth(ts, p);
      MergePassStep(ts, p, |ts|);
      assert ts[..|ts|] == ts && ts[w..|ts|] == ts[w..];
      assert (left + right)[1..] == left[1..] + right;
      var m := MergePassSplits(ts[w..], p, left[1..], right);
      n := m + w;
      assert ts[w..][..m] == ts[w..n] && ts[w..][m..] == ts[n..];
      MergePassStep(ts, p, n);
    }
  }

  /** How many tokens the pass consumes at the front. */
  function HeadWidth(ts: Word, p: Pair): (w: nat)
    requires ts != []
    ensures 1 <= w <= |ts|
  {
    if |ts| >= 2 && ts[0] == p.0 && ts[1] == p.1 then 2 else 1
  }

  /** The first step of the pass does not look behind the tokens it consumes. */
  lemma MergePassStep(ts: Word, p: Pair, n: nat)
    requires ts != [] && HeadWidth(ts, p) <= n <= |ts|
    ensures MergePass(ts, p) != []
    ensures MergePass(ts[..n], p) == [MergePass(ts, p)[0]] + MergePass(ts[HeadWidth(ts, p)..n], p)
  {
  }

  // ------------------------------------------------------------ many passes

  lemma {:induction false} ReplayAppend(ts: Word, a: seq<Pair>, b: seq<Pair>)
    ensures Replay(ts, a + b) == Replay(Replay(ts, a), b)
    decreases a
  {
    if a == [] {
      assert a + b == b;
    } else {
      assert (a + b)[1..] == a[1..] + b;
      ReplayAppend(MergePass(ts, a[0]), a[1..], b);
    }
  }

  lemma ReplayNext(ts: Word, merges: seq<Pair>, k: nat)
    requires k < |merges|
    ensures Replay(ts, merges[..k + 1]) == MergePass(Replay(ts, merges[..k]), merges[k])
  {
    assert merges[..k + 1] == merges[..k] + [merges[k]];
    ReplayAppend(ts, merges[..k], [merges[k]]);
    var r := Replay(ts, merges[..k]);
    assert Replay(MergePass(r, [merges[k]][0]), [merges[k]][1..]) == MergePass(r, merges[k]);
  }

  lemma {:induction false} ReplayKeepsText(ts: Word, merges: seq<Pair>)
    ensures Concat(Replay(ts, merges)) == Concat(ts)
    decreases merges
  {
    if merges == [] {
    } else {
      MergePassKeepsText(ts, merges[0]);
      ReplayKeepsText(MergePass(ts, merges[0]), merges[1..]);
    }
  }

  lemma {:induction false} ReplayNonEmpty(ts: Word, merges: seq<Pair>)
    requires NonEmptyTokens(ts)
    ensures NonEmptyTokens(Replay(ts, merges))
    decreases merges
  {
    if merges == [] {
    } else {
      MergePassNonEmpty(ts, merges[0]);
      ReplayNonEmpty(MergePass(ts, merges[0]), merges[1..]);
    }
  }

  /** A single token can no longer change. */
  lemma {:induction false} ReplaySingle(ts: Word, merges: seq<Pair>)
    requires |ts| == 1
    ensures Replay(ts, merges) == ts
    decreases merges
  {
    if merges == [] {
    } else {
      assert MergePass(ts, merges[0]) == [ts[0]] + MergePass(ts[1..], merges[0]) == ts;
      ReplaySingle(ts, merges[1..]);
    }
  }

  /** Once a rule has collapsed a stretch to one token, it stays one token under all later rules. */
  lemma CollapsedStaysWhole(ts: Word, merges: seq<Pair>, j: nat, k: nat)
    requires j < k <= |merges|
    requires Replay(ts, merges[..j]) == [merges[j].0, merges[j].1]
    ensures Replay(ts, merges[..k]) == [Merged(merges[j])]
  {
    ReplayNext(ts, merges, j);
    var p := merges[j];
    assert MergePass([p.0, p.1], p) == [Merged(p)] + MergePass([p.0, p.1][2..], p) == [Merged(p)];
    assert merges[..k] == merges[..j + 1] + merges[j + 1..k];
    ReplayAppend(ts, merges[..j + 1], merges[j + 1..k]);
    ReplaySingle([Merged(p)], merges[j + 1..k]);
  }

  /** The replay of any rules factors across every boundary that survives it. */
  lemma {:induction false} ReplaySplits(ts: Word, merges: seq<Pair>, left: Word, right: Word) returns (n: nat)
    requires Replay(ts, merges) == left + right
    ensures n <= |ts| && Replay(ts[..n], merges) == left && Replay(ts[n..], merges) == right
    decreases merges
  {
    if merges == [] {
      n := |left|;
    } else {
      var next := MergePass(ts, merges[0]);
      var m := ReplaySplits(next, merges[1..], left, right);
      assert next == next[..m] + next[m..];
      n := MergePassSplits(ts, merges[0], next[..m], next[m..]);
    }
  }

  /** Two neighbouring tokens of a replayed word come from one stretch of the original word. */
  lemma AdjacentComesFrom(ts: Word, merges: seq<Pair>, p: Pair, i: nat) returns (lo: nat, hi: nat)
    requires AdjacentAt(Replay(ts, merges), p, i)
    ensures lo <= hi <= |ts|
    ensures Replay(ts[lo..hi], merges) == [p.0, p.1]
  {
    var r := Replay(ts, merges);
    assert r == r[..i + 2] + r[i + 2..];
    hi := ReplaySplits(ts, merges, r[..i + 2], r[i + 2..]);
    assert r[..i + 2] == r[..i] + [p.0, p.1];
    lo := ReplaySplits(ts[..hi], merges, r[..i], [p.0, p.1]);
    assert ts[..hi][lo..] == ts[lo..hi];
  }
}
