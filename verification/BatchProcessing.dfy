/** Padded batches and their greedy grouping by length. */
module BatchProcessing {
  type Tokens = seq<int>

  datatype TokenBatch = TokenBatch(rows: seq<Tokens>, lengths: seq<int>, maxLength: int, pad: int)

  /** The batch of these sequences: each row is its sequence and then only padding, up to the longest length. */
  ghost predicate IsBatchOf(b: TokenBatch, sequences: seq<Tokens>, pad: int) {
    && b.pad == pad && |b.rows| == |b.lengths| == |sequences|
    && (sequences == [] ==> b.maxLength == 0)
    && (sequences != [] ==> exists i | 0 <= i < |sequences| :: |sequences[i]| == b.maxLength)
    && (forall i | 0 <= i < |sequences| :: RowOf(b.rows[i], b.lengths[i], sequences[i], b.maxLength, pad))
  }

  ghost predicate RowOf(row: Tokens, length: int, sequence: Tokens, maxLength: int, pad: int) {
    && length == |sequence| <= maxLength == |row|
    && row[..length] == sequence
    && forall j | length <= j < |row| :: row[j] == pad
  }

  method CreateBatch(sequences: seq<Tokens>, pad: int) returns (b: TokenBatch)
    ensures IsBatchOf(b, sequences, pad)
  {
    if sequences == [] {
      return TokenBatch([], [], 0, pad);
    }
    var maxLength := 0;
    var i := 0;
    while i < |sequences|
      invariant 0 <= i <= |sequences|
      invariant maxLength >= 0 && forall k | 0 <= k < i :: |sequences[k]| <= maxLength
      invariant (i == 0 && maxLength == 0) || maxLength == 0 || exists k | 0 <= k < i :: |sequences[k]| == maxLength
    {
      if |sequences[i]| > maxLength {
        maxLength := |sequences[i]|;
      }
      i := i + 1;
    }
    assert maxLength == 0 ==> |sequences[0]| == maxLength;
    var rows: seq<Tokens>, lengths: seq<int> := [], [];
    i := 0;
    while i < |sequences|
      invariant 0 <= i <= |sequences| && |rows| == |lengths| == i
      invariant forall k | 0 <= k < i :: RowOf(rows[k], lengths[k], sequences[k], maxLength, pad)
    {
      var padded := sequences[i];
      while |padded| < maxLength
        invariant |sequences[i]| <= |padded| <= maxLength
        invariant padded[..|sequences[i]|] == sequences[i]
        invariant forall j | |sequences[i]| <= j < |padded| :: padded[j] == pad
        decreases maxLength - |padded|
      {
        padded := padded + [pad];
      }
      rows := rows + [padded];
      lengths := lengths + [|sequences[i]|];
      i := i + 1;
    }
    b := TokenBatch(rows, lengths, maxLength, pad);
  }

  // --------------------------------------------------------------- sorting

  type LengthIndex = (int, int)

  predicate PairLess(a: LengthIndex, b: LengthIndex) {
    a.0 < b.0 || (a.0 == b.0 && a.1 < b.1)
  }

  predicate Ascending(ps: seq<LengthIndex>) {
    forall i, j | 0 <= i < j < |ps| :: PairLess(ps[i], ps[j])
  }

  /** `std::sort` on pairs that are all different. */
  method SortPairs(pairs: seq<LengthIndex>) returns (sorted: seq<LengthIndex>)
    requires forall i, j | 0 <= i < j < |pairs| :: pairs[i] != pairs[j]
    ensures Ascending(sorted) && multiset(sorted) == multiset(pairs)
  {
    sorted := [];
    var i := 0;
    while i < |pairs|
      invariant 0 <= i <= |pairs|
      invariant Ascending(sorted) && multiset(sorted) == multiset(pairs[..i])
    {
      assert pairs[..i + 1] == pairs[..i] + [pairs[i]];
      assert pairs[i] !in multiset(pairs[..i]);
      assert pairs[i] !in sorted by { assert forall p :: p in sorted <==> p in multiset(sorted); }
      sorted := InsertPair(sorted, pairs[i]);
      i := i + 1;
    }
    assert pairs[..i] == pairs;
  }

  lemma SameFirst(a: seq<LengthIndex>, b: seq<LengthIndex>)
    requires Ascending(a) && Ascending(b) && a != [] && b != [] && a[0] in b && b[0] in a
    ensures a[0] == b[0]
  {
  }

  lemma SameRest(a: seq<LengthIndex>, b: seq<LengthIndex>)
    requires a != [] && b != [] && a[0] == b[0] && multiset(a) == multiset(b)
    ensures multiset(a[1..]) == multiset(b[1..])
  {
    assert a == [a[0]] + a[1..] && b == [b[0]] + b[1..];
    assert multiset(a[1..]) == multiset(a) - multiset{a[0]} && multiset(b[1..]) == multiset(b) - multiset{b[0]};
  }

  /** Sorting leaves no choice: the ascending arrangement of given pairs is unique. */
  lemma {:induction false} AscendingUnique(a: seq<LengthIndex>, b: seq<LengthIndex>)
    requires Ascending(a) && Ascending(b) && multiset(a) == multiset(b)
    ensures a == b
  {
    assert |multiset(a)| == |a| && |multiset(b)| == |b|;
    if a == [] {
    } else {
      assert a[0] in multiset(b) && b[0] in multiset(a);
      SameFirst(a, b);
      SameRest(a, b);
      AscendingUnique(a[1..], b[1..]);
      assert a == [a[0]] + a[1..] && b == [b[0]] + b[1..];
    }
  }

  method InsertPair(sorted: seq<LengthIndex>, p: LengthIndex) returns (r: seq<LengthIndex>)
    requires Ascending(sorted) && p !in sorted
    ensures Ascending(r) && multiset(r) == multiset(sorted) + multiset{p}
  {
    var at := 0;
    while at < |sorted| && PairLess(sorted[at], p)
      invariant 0 <= at <= |sorted|
      invariant forall k | 0 <= k < at :: PairLess(sorted[k], p)
    {
      at := at + 1;
    }
    InsertKeepsOrder(sorted, at, p);
    hide Ascending;
    assert sorted == sorted[..at] + sorted[at..];
    r := sorted[..at] + [p] + sorted[at..];
  }

  lemma InsertKeepsOrder(sorted: seq<LengthIndex>, at: nat, p: LengthIndex)
    requires Ascending(sorted) && at <= |sorted| && p !in sorted
    requires forall k | 0 <= k < at :: PairLess(sorted[k], p)
    requires at < |sorted| ==> !PairLess(sorted[at], p)
    ensures Ascending(sorted[..at] + [p] + sorted[at..])
  {
    var r := sorted[..at] + [p] + sorted[at..];
    forall i, j | 0 <= i < j < |r| ensures PairLess(r[i], r[j]) {
      if i == at {
        assert r[j] == sorted[j - 1];
        assert at == j - 1 || PairLess(sorted[at], sorted[j - 1]);
        assert sorted[at] in sorted;
      } else if j == at {
      } else {
        var i0, j0 := if i < at then i else i - 1, if j < at then j else j - 1;
        assert r[i] == sorted[i0] && r[j] == sorted[j0];
      }
    }
  }

  /** `order` lists every input position once, shorter sequences first and equal lengths in input order. */
  ghost predicate StableOrder(sequences: seq<Tokens>, order: seq<int>) {
    && |order| == |sequences|
    && (forall i | 0 <= i < |order| :: 0 <= order[i] < |sequences|)
    && (forall k | 0 <= k < |sequences| :: k in order)
    && (forall i, j | 0 <= i < j < |order| ::
          |sequences[order[i]]| < |sequences[order[j]]|
          || (|sequences[order[i]]| == |sequences[order[j]]| && order[i] < order[j]))
  }

  function Arranged(sequences: seq<Tokens>, order: seq<int>): seq<Tokens>
    requires forall i | 0 <= i < |order| :: 0 <= order[i] < |sequences|
  {
    seq(|order|, i requires 0 <= i < |order| => sequences[order[i]])
  }

  // -------------------------------------------------------------- grouping

  /** The cap after the cast to an unsigned 64-bit size. */
  function SizeCast(n: int): (r: nat)
    requires -0x8000_0000 <= n < 0x8000_0000
    ensures r < 0x1_0000_0000_0000_0000 && (r - n) % 0x1_0000_0000_0000_0000 == 0
  {
    if n < 0 then 0x1_0000_0000_0000_0000 + n else n
  }

  /** How far the group at the front reaches, once `k` sequences are in it. */
  function GroupFrom(ss: seq<Tokens>, k: nat, cap: nat, tol: int): (g: nat)
    requires k <= |ss|
    ensures k <= g <= |ss|
    decreases |ss| - k
  {
    if k < |ss| && (k == 0 || (k < cap && |ss[k]| - |ss[0]| <= tol)) then GroupFrom(ss, k + 1, cap, tol) else k
  }

  function FirstGroup(ss: seq<Tokens>, cap: nat, tol: int): (g: nat)
    requires ss != []
    ensures 1 <= g <= |ss|
  {
    GroupFrom(ss, 1, cap, tol)
  }

  function GreedyGroups(ss: seq<Tokens>, cap: nat, tol: int): seq<seq<Tokens>> {
    if ss == [] then []
    else
      var g := FirstGroup(ss, cap, tol);
      [ss[..g]] + GreedyGroups(ss[g..], cap, tol)
  }

  ghost predicate AreBatchesOf(batches: seq<TokenBatch>, groups: seq<seq<Tokens>>, pad: int) {
    |batches| == |groups| && forall i | 0 <= i < |groups| :: IsBatchOf(batches[i], groups[i], pad)
  }

  method CreateDynamicBatches(sequences: seq<Tokens>, maxBatchSize: int, lengthTolerance: int, pad: int)
    returns (batches: seq<TokenBatch>)
    requires -0x8000_0000 <= maxBatchSize < 0x8000_0000
    ensures exists order | StableOrder(sequences, order) ::
              AreBatchesOf(batches, GreedyGroups(Arranged(sequences, order), SizeCast(maxBatchSize), lengthTolerance), pad)
  {
    hide IsBatchOf, Ascending;
    if sequences == [] {
      assert Arranged(sequences, []) == [] && StableOrder(sequences, []);
      return [];
    }
    var pairs := LengthIndexPairs(sequences);
    var sorted := SortPairs(pairs);
    SortedIsStable(sequences, pairs, sorted);
    batches := GroupSorted(sequences, sorted, SizeCast(maxBatchSize), lengthTolerance, pad);
  }

  method GroupSorted(sequences: seq<Tokens>, sorted: seq<LengthIndex>, cap: nat, lengthTolerance: int, pad: int)
    returns (batches: seq<TokenBatch>)
    requires sorted != []
    requires forall i | 0 <= i < |sorted| :: 0 <= sorted[i].1 < |sequences| && sorted[i].0 == |sequences[sorted[i].1]|
    ensures AreBatchesOf(batches, GreedyGroups(Arranged(sequences, Seconds(sorted)), cap, lengthTolerance), pad)
  {
    hide IsBatchOf, AreBatchesOf, GreedyGroups, Collecting;
    ghost var ss := Arranged(sequences, Seconds(sorted));
    batches := [];
    var current: seq<Tokens> := [];
    var currentMin := sorted[0].0;
    ghost var done: seq<seq<Tokens>> := [];
    OpenStart(ss, cap, lengthTolerance);
    NoBatches(pad);
    var i := 0;
    while i < |sorted|
      invariant 0 <= i <= |sorted| && (i > 0 ==> current != [])
      invariant current != [] ==> currentMin == |current[0]|
      invariant AreBatchesOf(batches, done, pad)
      invariant Collecting(ss, i, current, cap, lengthTolerance, done)
    {
      var length, index := sorted[i].0, sorted[i].1;
      assert ss[i] == sequences[index] && length == |ss[i]|;
      var startNewBatch := |current| >= cap || (current != [] && length - currentMin > lengthTolerance);
      if startNewBatch && current != [] {
        CloseGroup(ss, i, current, cap, lengthTolerance, done);
        var b := CreateBatch(current, pad);
        OneMoreBatch(batches, done, b, current, pad);
        batches := batches + [b];
        done := done + [current];
        current := [];
        currentMin := length;
      }
      ExtendGroup(ss, i, current, cap, lengthTolerance, done);
      current := current + [sequences[index]];
      if |current| == 1 {
        currentMin := length;
      }
      i := i + 1;
    }
    CloseGroup(ss, i, current, cap, lengthTolerance, done);
    var b := CreateBatch(current, pad);
    OneMoreBatch(batches, done, b, current, pad);
    batches := batches + [b];
    done := done + [current];
    AllGrouped(ss, cap, lengthTolerance, done);
  }

  lemma NoBatches(pad: int)
    ensures AreBatchesOf([], [], pad)
  {
  }

  lemma OneMoreBatch(batches: seq<TokenBatch>, done: seq<seq<Tokens>>, b: TokenBatch, group: seq<Tokens>, pad: int)
    requires AreBatchesOf(batches, done, pad) && IsBatchOf(b, group, pad)
    ensures AreBatchesOf(batches + [b], done + [group], pad)
  {
    hide IsBatchOf;
  }

  /** The groups closed so far, and the one still open, as the greedy rule has them after `i` sequences. */
  ghost predicate Collecting(ss: seq<Tokens>, i: nat, current: seq<Tokens>, cap: nat, tol: int, done: seq<seq<Tokens>>) {
    && |current| <= i <= |ss|
    && var rest := ss[i - |current|..];
      && current == rest[..|current|]
      && done + GreedyGroups(rest, cap, tol) == GreedyGroups(ss, cap, tol)
      && (current != [] ==> FirstGroup(rest, cap, tol) == GroupFrom(rest, |current|, cap, tol))
  }

  lemma OpenStart(ss: seq<Tokens>, cap: nat, tol: int)
    ensures Collecting(ss, 0, [], cap, tol, [])
  {
    assert ss[0..] == ss;
  }

  lemma ExtendGroup(ss: seq<Tokens>, i: nat, current: seq<Tokens>, cap: nat, tol: int, done: seq<seq<Tokens>>)
    requires Collecting(ss, i, current, cap, tol, done) && i < |ss|
    requires current == [] || (|current| < cap && |ss[i]| - |current[0]| <= tol)
    ensures Collecting(ss, i + 1, current + [ss[i]], cap, tol, done)
  {
    hide GreedyGroups;
    var rest := ss[i - |current|..];
    assert rest[|current|] == ss[i];
    assert rest[..|current| + 1] == current + [ss[i]];
    assert i + 1 - |current + [ss[i]]| == i - |current|;
    assert current != [] ==> current[0] == rest[0];
  }

  lemma CloseGroup(ss: seq<Tokens>, i: nat, current: seq<Tokens>, cap: nat, tol: int, done: seq<seq<Tokens>>)
    requires Collecting(ss, i, current, cap, tol, done) && current != []
    requires i == |ss| || |current| >= cap || |ss[i]| - |current[0]| > tol
    ensures Collecting(ss, i, [], cap, tol, done + [current])
  {
    var rest := ss[i - |current|..];
    assert current[0] == rest[0] && (i < |ss| ==> rest[|current|] == ss[i]);
    assert FirstGroup(rest, cap, tol) == |current|;
    assert rest[|current|..] == ss[i..];
    GreedyStep(rest, current, cap, tol, done);
    hide FirstGroup, GreedyGroups;
    assert ss[i..][..0] == [];
  }

  lemma GreedyStep(rest: seq<Tokens>, current: seq<Tokens>, cap: nat, tol: int, done: seq<seq<Tokens>>)
    requires rest != [] && FirstGroup(rest, cap, tol) == |current| && current == rest[..|current|]
    ensures done + GreedyGroups(rest, cap, tol) == (done + [current]) + GreedyGroups(rest[|current|..], cap, tol)
  {
    hide FirstGroup;
  }

  lemma AllGrouped(ss: seq<Tokens>, cap: nat, tol: int, done: seq<seq<Tokens>>)
    requires Collecting(ss, |ss|, [], cap, tol, done)
    ensures done == GreedyGroups(ss, cap, tol)
  {
    assert ss[|ss|..] == [];
  }

  method LengthIndexPairs(sequences: seq<Tokens>) returns (pairs: seq<LengthIndex>)
    ensures |pairs| == |sequences|
    ensures forall i | 0 <= i < |pairs| :: pairs[i] == (|sequences[i]|, i)
  {
    pairs := [];
    var i := 0;
    while i < |sequences|
      invariant 0 <= i <= |sequences| && |pairs| == i
      invariant forall k | 0 <= k < i :: pairs[k] == (|sequences[k]|, k)
    {
      pairs := pairs + [(|sequences[i]|, i)];
      i := i + 1;
    }
  }

  // ------------------------------------------------ the sort is a permutation

  function Seconds(ps: seq<LengthIndex>): seq<int> {
    seq(|ps|, i requires 0 <= i < |ps| => ps[i].1)
  }

  lemma SortedIsStable(sequences: seq<Tokens>, pairs: seq<LengthIndex>, sorted: seq<LengthIndex>)
    requires |pairs| == |sequences| && forall i | 0 <= i < |pairs| :: pairs[i] == (|sequences[i]|, i)
    requires Ascending(sorted) && multiset(sorted) == multiset(pairs)
    ensures |sorted| == |sequences|
    ensures forall i | 0 <= i < |sorted| :: 0 <= sorted[i].1 < |sequences| && sorted[i].0 == |sequences[sorted[i].1]|
    ensures StableOrder(sequences, Seconds(sorted))
  {
    assert |multiset(sorted)| == |sorted| && |multiset(pairs)| == |pairs|;
    forall i | 0 <= i < |sorted| ensures 0 <= sorted[i].1 < |sequences| && sorted[i].0 == |sequences[sorted[i].1]| {
      assert sorted[i] in multiset(pairs);
    }
    forall k | 0 <= k < |sequences| ensures k in Seconds(sorted) {
      assert pairs[k] in multiset(sorted);
      var i :| 0 <= i < |sorted| && sorted[i] == pairs[k];
      assert Seconds(sorted)[i] == k;
    }
    forall i, j | 0 <= i < j < |sorted|
      ensures var a, b := Seconds(sorted)[i], Seconds(sorted)[j];
        |sequences[a]| < |sequences[b]| || (|sequences[a]| == |sequences[b]| && a < b)
    {
      assert PairLess(sorted[i], sorted[j]);
    }
  }
}
