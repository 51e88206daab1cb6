/** What the greedy grouping guarantees: nothing lost, padding bounded, and no grouping with fewer batches. */
module BatchOptimality {
  import opened BatchProcessing
  import opened FiniteSets
  import opened Sequences

  // ----------------------------------------------------------- conservation

  /** The groups, one after the other, are exactly the arranged sequences. */
  lemma {:induction false} GroupsConserve(ss: seq<Tokens>, cap: nat, tol: int)
    ensures Flatten(GreedyGroups(ss, cap, tol)) == ss
  {
    if ss == [] {
    } else {
      GroupsConserve(ss[FirstGroup(ss, cap, tol)..], cap, tol);
    }
  }

  predicate ByLength(ss: seq<Tokens>) {
    forall i, j | 0 <= i <= j < |ss| :: |ss[i]| <= |ss[j]|
  }

  lemma {:induction false} GroupFromWithin(ss: seq<Tokens>, k: nat, cap: nat, tol: int)
    requires 0 < k <= |ss|
    ensures var g := GroupFrom(ss, k, cap, tol);
      && (g == k || g <= cap)
      && (forall i | k <= i < g :: |ss[i]| - |ss[0]| <= tol)
      && (g < |ss| ==> g >= cap || |ss[g]| - |ss[0]| > tol)
    decreases |ss| - k
  {
    if k == |ss| || k >= cap || |ss[k]| - |ss[0]| > tol {
    } else {
      GroupFromWithin(ss, k + 1, cap, tol);
    }
  }

  /** Every group is a single sequence, or respects both the size cap and the length spread. */
  ghost predicate GroupFits(group: seq<Tokens>, cap: nat, tol: int) {
    |group| == 1
    || (1 < |group| <= cap && forall i, j | 0 <= i < |group| && 0 <= j < |group| :: |group[i]| - |group[j]| <= tol)
  }

  lemma {:induction false} GroupsFit(ss: seq<Tokens>, cap: nat, tol: int)
    requires ByLength(ss)
    ensures forall i | 0 <= i < |GreedyGroups(ss, cap, tol)| :: GroupFits(GreedyGroups(ss, cap, tol)[i], cap, tol)
  {
    if ss == [] {
    } else {
      var g := FirstGroup(ss, cap, tol);
      GroupFromWithin(ss, 1, cap, tol);
      GroupsFit(ss[g..], cap, tol);
      assert GroupFits(ss[..g], cap, tol);
    }
  }

  /** Group `i` could not have taken the sequence behind it: it is full, or that sequence is too long for it. */
  predicate ClosedAt(groups: seq<seq<Tokens>>, i: nat, cap: nat, tol: int)
    requires i < |groups|
  {
    && groups[i] != []
    && (i + 1 < |groups| ==>
          groups[i + 1] != [] && (|groups[i]| >= cap || |groups[i + 1][0]| - |groups[i][0]| > tol))
  }

  predicate AllClosed(groups: seq<seq<Tokens>>, cap: nat, tol: int) {
    forall i | 0 <= i < |groups| :: ClosedAt(groups, i, cap, tol)
  }

  lemma ClosedFront(first: seq<Tokens>, rest: seq<seq<Tokens>>, cap: nat, tol: int)
    requires first != [] && AllClosed(rest, cap, tol)
    requires rest != [] ==> rest[0] != [] && (|first| >= cap || |rest[0][0]| - |first[0]| > tol)
    ensures AllClosed([first] + rest, cap, tol)
  {
    var groups := [first] + rest;
    forall i | 0 <= i < |groups| ensures ClosedAt(groups, i, cap, tol) {
      assert i > 0 ==> ClosedAt(rest, i - 1, cap, tol);
    }
  }

  /** Each group goes on as long as the cap and the spread allow. */
  lemma {:induction false} GroupsMaximal(ss: seq<Tokens>, cap: nat, tol: int)
    ensures AllClosed(GreedyGroups(ss, cap, tol), cap, tol)
  {
    if ss == [] {
    } else {
      var g := FirstGroup(ss, cap, tol);
      GroupFromWithin(ss, 1, cap, tol);
      GroupsMaximal(ss[g..], cap, tol);
      var rest := GreedyGroups(ss[g..], cap, tol);
      if g < |ss| {
        assert rest[0][0] == ss[g..][0] == ss[g];
      } else {
        assert ss[g..] == [];
      }
      assert ss[..g][0] == ss[0];
      hide AllClosed;
      ClosedFront(ss[..g], rest, cap, tol);
    }
  }

  // ------------------------------------------------------------ padding bound

  function RowTokens(b: TokenBatch): int {
    |b.rows| * b.maxLength
  }

  function SumOf(lengths: seq<int>): int {
    if lengths == [] then 0 else lengths[0] + SumOf(lengths[1..])
  }

  function TotalTokens(batches: seq<TokenBatch>): int {
    if batches == [] then 0 else RowTokens(batches[0]) + TotalTokens(batches[1..])
  }

  function ActualTokens(batches: seq<TokenBatch>): int {
    if batches == [] then 0 else SumOf(batches[0].lengths) + ActualTokens(batches[1..])
  }

  function Rows(batches: seq<TokenBatch>): int {
    if batches == [] then 0 else |batches[0].rows| + Rows(batches[1..])
  }

  datatype BatchStats = BatchStats(totalTokens: int, actualTokens: int, numBatches: int, totalSequences: int)

  /** Every row is as long as its batch says, and its sequence fits into it. */
  predicate Rectangular(batches: seq<TokenBatch>) {
    forall b | 0 <= b < |batches| ::
      |batches[b].lengths| == |batches[b].rows| && forall i | 0 <= i < |batches[b].rows| ::
        0 <= batches[b].lengths[i] <= |batches[b].rows[i]| == batches[b].maxLength
  }

  /** The cells of all rows, by batch, row and position; or only those behind the row's sequence. */
  function Cells(batches: seq<TokenBatch>, padding: bool): set<(int, int, int)>
    requires Rectangular(batches)
  {
    set b, i, j | 0 <= b < |batches| && 0 <= i < |batches[b].rows| && From(batches[b], i, padding) <= j < |batches[b].rows[i]| ::
      (b, i, j)
  }

  function From(b: TokenBatch, i: nat, padding: bool): int
    requires i < |b.rows| == |b.lengths|
  {
    if padding then b.lengths[i] else 0
  }

  method ComputeBatchStats(batches: seq<TokenBatch>) returns (stats: BatchStats)
    ensures stats == BatchStats(TotalTokens(batches), ActualTokens(batches), |batches|, Rows(batches))
    ensures Rectangular(batches) ==>
              && stats.totalTokens == |Cells(batches, false)|
              && stats.totalTokens - stats.actualTokens == |Cells(batches, true)|
  {
    hide Cells;
    if Rectangular(batches) {
      TokensAreCells(batches);
    }
    var total, actual, sequences := 0, 0, 0;
    assert batches[0..] == batches;
    var i := 0;
    while i < |batches|
      invariant 0 <= i <= |batches|
      invariant total + TotalTokens(batches[i..]) == TotalTokens(batches)
      invariant actual + ActualTokens(batches[i..]) == ActualTokens(batches)
      invariant sequences + Rows(batches[i..]) == Rows(batches)
    {
      assert batches[i..][1..] == batches[i + 1..];
      var batchTotal := |batches[i].rows| * batches[i].maxLength;
      var batchActual := SumLengths(batches[i].lengths);
      total := total + batchTotal;
      actual := actual + batchActual;
      sequences := sequences + |batches[i].rows|;
      i := i + 1;
    }
    stats := BatchStats(total, actual, |batches|, sequences);
  }

  method SumLengths(lengths: seq<int>) returns (sum: int)
    ensures sum == SumOf(lengths)
  {
    sum := 0;
    assert lengths[0..] == lengths;
    var i := 0;
    while i < |lengths|
      invariant 0 <= i <= |lengths|
      invariant sum + SumOf(lengths[i..]) == SumOf(lengths)
    {
      assert lengths[i..][1..] == lengths[i + 1..];
      sum := sum + lengths[i];
      i := i + 1;
    }
  }

  /** The cells of row `i` from `lo` to `hi`. */
  function Span(b: int, i: int, lo: int, hi: int): set<(int, int, int)> {
    set j | lo <= j < hi :: (b, i, j)
  }

  lemma {:induction false} SpanSize(b: int, i: int, lo: int, hi: int)
    requires lo <= hi
    ensures |Span(b, i, lo, hi)| == hi - lo
    decreases hi - lo
  {
    if lo == hi {
      assert Span(b, i, lo, hi) == {};
    } else {
      SpanSize(b, i, lo, hi - 1);
      assert Span(b, i, lo, hi) == Span(b, i, lo, hi - 1) + {(b, i, hi - 1)};
    }
  }

  lemma {:induction false} SumOfLast(lengths: seq<int>, last: int)
    ensures SumOf(lengths + [last]) == SumOf(lengths) + last
  {
    if lengths == [] {
      assert (lengths + [last])[1..] == [];
    } else {
      assert (lengths + [last])[1..] == lengths[1..] + [last];
      SumOfLast(lengths[1..], last);
    }
  }

  /** The cells of the first `n` rows of one batch. */
  function RowCells(b: int, batch: TokenBatch, padding: bool, n: nat): set<(int, int, int)>
    requires n <= |batch.rows| == |batch.lengths|
  {
    set i, j | 0 <= i < n && From(batch, i, padding) <= j < |batch.rows[i]| :: (b, i, j)
  }

  lemma RowCellsLast(b: int, batch: TokenBatch, padding: bool, n: nat)
    requires n < |batch.rows| == |batch.lengths|
    ensures var last := Span(b, n, From(batch, n, padding), |batch.rows[n]|);
      RowCells(b, batch, padding, n + 1) == RowCells(b, batch, padding, n) + last && RowCells(b, batch, padding, n) !! last
  {
  }

  lemma LastSpanSize(b: int, batch: TokenBatch, padding: bool, n: nat)
    requires Rectangular([batch]) && n < |batch.rows| == |batch.lengths|
    ensures |Span(b, n, From(batch, n, padding), |batch.rows[n]|)| ==
            batch.maxLength - if padding then batch.lengths[n] else 0
    ensures SumOf(batch.lengths[..n + 1]) == SumOf(batch.lengths[..n]) + batch.lengths[n]
  {
    assert [batch][0] == batch;
    assert 0 <= batch.lengths[n] <= |batch.rows[n]| == batch.maxLength;
    SpanSize(b, n, From(batch, n, padding), |batch.rows[n]|);
    SumOfLast(batch.lengths[..n], batch.lengths[n]);
    assert batch.lengths[..n + 1] == batch.lengths[..n] + [batch.lengths[n]];
    hide Span, SumOf;
  }

  lemma {:induction false} RowCellsSize(b: int, batch: TokenBatch, padding: bool, n: nat)
    requires Rectangular([batch]) && n <= |batch.rows| == |batch.lengths|
    ensures |RowCells(b, batch, padding, n)| == n * batch.maxLength - if padding then SumOf(batch.lengths[..n]) else 0
  {
    if n == 0 {
      assert RowCells(b, batch, padding, n) == {};
    } else {
      RowCellsSize(b, batch, padding, n - 1);
      RowCellsLast(b, batch, padding, n - 1);
      LastSpanSize(b, batch, padding, n - 1);
      hide *;
      assert n * batch.maxLength == (n - 1) * batch.maxLength + batch.maxLength;
    }
  }

  lemma {:induction false} TotalsLast(batches: seq<TokenBatch>, last: TokenBatch)
    ensures TotalTokens(batches + [last]) == TotalTokens(batches) + RowTokens(last)
    ensures ActualTokens(batches + [last]) == ActualTokens(batches) + SumOf(last.lengths)
  {
    hide RowTokens, SumOf;
    if batches == [] {
      assert (batches + [last])[1..] == [];
    } else {
      assert (batches + [last])[1..] == batches[1..] + [last];
      TotalsLast(batches[1..], last);
    }
  }

  /** `total_tokens` is the number of cells, and what it exceeds `actual_tokens` by is the number of padding cells. */
  lemma {:induction false} TokensAreCells(batches: seq<TokenBatch>)
    requires Rectangular(batches)
    ensures TotalTokens(batches) == |Cells(batches, false)|
    ensures TotalTokens(batches) - ActualTokens(batches) == |Cells(batches, true)|
  {
    if batches == [] {
    } else {
      var n := |batches| - 1;
      var last := batches[n];
      TokensAreCells(batches[..n]);
      TotalsLast(batches[..n], last);
      assert batches == batches[..n] + [last];
      RowCellsSize(n, last, false, |last.rows|);
      RowCellsSize(n, last, true, |last.rows|);
      assert last.lengths[..|last.rows|] == last.lengths;
      CellsLast(batches, false);
      CellsLast(batches, true);
    }
  }

  lemma CellsLast(batches: seq<TokenBatch>, padding: bool)
    requires Rectangular(batches) && batches != []
    ensures var n := |batches| - 1;
      var row := RowCells(n, batches[n], padding, |batches[n].rows|);
      Cells(batches, padding) == Cells(batches[..n], padding) + row && Cells(batches[..n], padding) !! row
  {
  }

  /** Batches as they are made are rectangular. */
  lemma BatchesRectangular(batches: seq<TokenBatch>, groups: seq<seq<Tokens>>, pad: int)
    requires AreBatchesOf(batches, groups, pad)
    ensures Rectangular(batches)
  {
    forall b, i | 0 <= b < |batches| && 0 <= i < |batches[b].rows|
      ensures 0 <= batches[b].lengths[i] <= |batches[b].rows[i]| == batches[b].maxLength
    {
      assert IsBatchOf(batches[b], groups[b], pad);
      assert RowOf(batches[b].rows[i], batches[b].lengths[i], groups[b][i], batches[b].maxLength, pad);
    }
  }

  function SumLengthsOf(ss: seq<Tokens>): int {
    if ss == [] then 0 else |ss[0]| + SumLengthsOf(ss[1..])
  }

  lemma {:induction false} SumOfLengths(lengths: seq<int>, ss: seq<Tokens>)
    requires |lengths| == |ss| && forall i | 0 <= i < |ss| :: lengths[i] == |ss[i]|
    ensures SumOf(lengths) == SumLengthsOf(ss)
  {
    if ss == [] {
    } else {
      SumOfLengths(lengths[1..], ss[1..]);
    }
  }

  lemma {:induction false} SumLengthsAppend(a: seq<Tokens>, b: seq<Tokens>)
    ensures SumLengthsOf(a + b) == SumLengthsOf(a) + SumLengthsOf(b)
  {
    if a == [] {
      assert a + b == b;
    } else {
      assert (a + b)[1..] == a[1..] + b;
      SumLengthsAppend(a[1..], b);
    }
  }

  /** `actual_tokens` counts every token of the input once; the rows count every sequence once. */
  lemma {:induction false} StatsConserve(batches: seq<TokenBatch>, groups: seq<seq<Tokens>>, pad: int)
    requires AreBatchesOf(batches, groups, pad)
    ensures ActualTokens(batches) == SumLengthsOf(Flatten(groups))
    ensures Rows(batches) == |Flatten(groups)|
  {
    if groups == [] {
    } else {
      assert IsBatchOf(batches[0], groups[0], pad);
      assert forall i | 0 <= i < |groups[0]| :: RowOf(batches[0].rows[i], batches[0].lengths[i], groups[0][i], batches[0].maxLength, pad);
      SumOfLengths(batches[0].lengths, groups[0]);
      assert AreBatchesOf(batches[1..], groups[1..], pad) by { BatchesTail(batches, groups, pad); }
      StatsConserve(batches[1..], groups[1..], pad);
      SumLengthsAppend(groups[0], Flatten(groups[1..]));
    }
  }

  lemma BatchesTail(batches: seq<TokenBatch>, groups: seq<seq<Tokens>>, pad: int)
    requires AreBatchesOf(batches, groups, pad) && groups != []
    ensures AreBatchesOf(batches[1..], groups[1..], pad)
  {
  }

  /** Each sequence falls short of the longest by at most the tolerance. */
  lemma {:induction false} ShortBy(ss: seq<Tokens>, longest: int, tol: int)
    requires forall i | 0 <= i < |ss| :: longest - |ss[i]| <= tol
    ensures |ss| * longest - SumLengthsOf(ss) <= |ss| * tol
  {
    if ss == [] {
    } else {
      ShortBy(ss[1..], longest, tol);
      assert |ss| * longest == |ss[1..]| * longest + longest;
      assert |ss| * tol == |ss[1..]| * tol + tol;
    }
  }

  lemma GroupPadding(b: TokenBatch, group: seq<Tokens>, pad: int, cap: nat, tol: int)
    requires IsBatchOf(b, group, pad) && GroupFits(group, cap, tol)
    ensures RowTokens(b) - SumOf(b.lengths) <= tol * (|group| - 1)
  {
    forall i | 0 <= i < |group| ensures b.lengths[i] == |group[i]| {
      assert RowOf(b.rows[i], b.lengths[i], group[i], b.maxLength, pad);
    }
    SumOfLengths(b.lengths, group);
    var k :| 0 <= k < |group| && |group[k]| == b.maxLength;
    WithoutLongest(group, k, tol);
  }

  /** The longest sequence needs no padding, each other one at most the tolerance. */
  lemma WithoutLongest(group: seq<Tokens>, k: nat, tol: int)
    requires k < |group|
    requires |group| > 1 ==> forall i | 0 <= i < |group| :: |group[k]| - |group[i]| <= tol
    ensures |group| * |group[k]| - SumLengthsOf(group) <= tol * (|group| - 1)
  {
    var others := group[..k] + group[k + 1..];
    SumWithout(group, k);
    OthersWithin(group, k, tol);
    hide SumLengthsOf;
    ShortBy(others, |group[k]|, tol);
    OneMore(|others|, |group[k]|, tol);
  }

  lemma OthersWithin(group: seq<Tokens>, k: nat, tol: int)
    requires k < |group|
    requires |group| > 1 ==> forall i | 0 <= i < |group| :: |group[k]| - |group[i]| <= tol
    ensures var others := group[..k] + group[k + 1..];
      |others| == |group| - 1 && forall i | 0 <= i < |others| :: |group[k]| - |others[i]| <= tol
  {
  }

  lemma OneMore(n: int, longest: int, tol: int)
    ensures (n + 1) * longest == n * longest + longest
    ensures n * tol == tol * n
  {
  }

  lemma SumWithout(group: seq<Tokens>, k: nat)
    requires k < |group|
    ensures SumLengthsOf(group) == SumLengthsOf(group[..k] + group[k + 1..]) + |group[k]|
  {
    var one := [group[k]];
    assert one[1..] == [];
    assert SumLengthsOf(one) == |group[k]| + SumLengthsOf([]);
    hide SumLengthsOf;
    assert group == group[..k] + (one + group[k + 1..]);
    SumLengthsAppend(group[..k], one + group[k + 1..]);
    SumLengthsAppend(one, group[k + 1..]);
    SumLengthsAppend(group[..k], group[k + 1..]);
  }

  /** Padding over all batches is at most the tolerance times (sequences - batches). */
  lemma {:induction false} PaddingBound(batches: seq<TokenBatch>, groups: seq<seq<Tokens>>, pad: int, cap: nat, tol: int,
                                        spare: int)
    requires AreBatchesOf(batches, groups, pad)
    requires forall i | 0 <= i < |groups| :: GroupFits(groups[i], cap, tol)
    requires spare == |Flatten(groups)| - |groups|
    ensures TotalTokens(batches) - ActualTokens(batches) <= tol * spare
  {
    hide IsBatchOf, GroupFits;
    if groups == [] {
    } else {
      var first := |groups[0]| - 1;
      GroupPadding(batches[0], groups[0], pad, cap, tol);
      PaddingBound(batches[1..], groups[1..], pad, cap, tol, spare - first);
      TimesSplit(tol, first, spare - first);
    }
  }

  lemma TimesSplit(tol: int, a: int, b: int)
    ensures tol * (a + b) == tol * a + tol * b
  {
  }

  lemma ArrangedByLength(sequences: seq<Tokens>, order: seq<int>)
    requires StableOrder(sequences, order)
    ensures ByLength(Arranged(sequences, order)) && |Arranged(sequences, order)| == |sequences|
  {
  }

  /** One call conserves its input: the groups are the sequences in stable length order, every token counted once. */
  lemma DynamicBatchesConserve(sequences: seq<Tokens>, order: seq<int>, cap: nat, tol: int, pad: int, batches: seq<TokenBatch>)
    requires StableOrder(sequences, order)
    requires AreBatchesOf(batches, GreedyGroups(Arranged(sequences, order), cap, tol), pad)
    ensures Flatten(GreedyGroups(Arranged(sequences, order), cap, tol)) == Arranged(sequences, order)
    ensures Rows(batches) == |sequences|
    ensures ActualTokens(batches) == SumLengthsOf(Arranged(sequences, order))
  {
    var ss := Arranged(sequences, order);
    var groups := GreedyGroups(ss, cap, tol);
    assert |ss| == |sequences|;
    hide IsBatchOf, StableOrder, Arranged, GreedyGroups, AreBatchesOf, Flatten, ActualTokens, Rows, SumLengthsOf;
    GroupsConserve(ss, cap, tol);
    StatsConserve(batches, groups, pad);
  }

  /** One call bounds its padding: `total_tokens - actual_tokens <= length_tolerance * (sequences - batches)`. */
  lemma DynamicBatchesPadding(sequences: seq<Tokens>, order: seq<int>, cap: nat, tol: int, pad: int, batches: seq<TokenBatch>,
                              spare: int)
    requires StableOrder(sequences, order)
    requires AreBatchesOf(batches, GreedyGroups(Arranged(sequences, order), cap, tol), pad)
    requires spare == |sequences| - |batches|
    ensures TotalTokens(batches) - ActualTokens(batches) <= tol * spare
  {
    ArrangedByLength(sequences, order);
    SortedPadding(Arranged(sequences, order), cap, tol, pad, batches, spare);
  }

  lemma SortedPadding(ss: seq<Tokens>, cap: nat, tol: int, pad: int, batches: seq<TokenBatch>, spare: int)
    requires ByLength(ss) && AreBatchesOf(batches, GreedyGroups(ss, cap, tol), pad)
    requires spare == |ss| - |batches|
    ensures TotalTokens(batches) - ActualTokens(batches) <= tol * spare
  {
    hide *;
    var groups := GreedyGroups(ss, cap, tol);
    BatchCount(batches, groups, pad);
    GroupsConserve(ss, cap, tol);
    GroupsFit(ss, cap, tol);
    PaddingBound(batches, groups, pad, cap, tol, spare);
  }

  lemma BatchCount(batches: seq<TokenBatch>, groups: seq<seq<Tokens>>, pad: int)
    requires AreBatchesOf(batches, groups, pad)
    ensures |batches| == |groups|
  {
  }

  // --------------------------------------------------------------- optimality

  /** The positions a labelling puts into group `c`. */
  function Members(tag: seq<nat>, c: nat): set<int> {
    set i | 0 <= i < |tag| && tag[i] == c
  }

  ghost predicate Sized(tag: seq<nat>, cap: nat) {
    forall c: nat :: |Members(tag, c)| <= cap
  }


  /** A grouping into at most `k` groups, contiguous or not: sizes up to `cap`, lengths within `tol`. */
  ghost predicate Grouping(ss: seq<Tokens>, tag: seq<nat>, k: nat, cap: nat, tol: int) {
    && |tag| == |ss|
    && (forall i | 0 <= i < |tag| :: tag[i] < k)
    && Sized(tag, cap)
    && Spread(ss, tag, tol)
  }

  ghost predicate Spread(ss: seq<Tokens>, tag: seq<nat>, tol: int)
    requires |tag| == |ss|
  {
    forall i, j | 0 <= i < |ss| && 0 <= j < |ss| && tag[i] == tag[j] :: |ss[i]| - |ss[j]| <= tol
  }

  /** Exchanging a later member of the first sequence's group for an earlier outsider keeps a grouping valid. */
  lemma ExchangeKeepsGrouping(ss: seq<Tokens>, tag: seq<nat>, k: nat, cap: nat, tol: int, x: nat, y: nat)
    requires ByLength(ss) && Grouping(ss, tag, k, cap, tol)
    requires 0 < x < y < |ss| && tag[y] == tag[0] && tag[x] != tag[0]
    requires |ss[x]| - |ss[0]| <= tol
    ensures Grouping(ss, tag[x := tag[y]][y := tag[x]], k, cap, tol)
  {
    var swapped := tag[x := tag[y]][y := tag[x]];
    forall c: nat ensures |Members(swapped, c)| <= cap {
      SwapSizes(tag, x, y, c);
    }
    SwapSpread(ss, tag, tol, x, y);
  }

  lemma SwapSizes(tag: seq<nat>, x: nat, y: nat, c: nat)
    requires x < y < |tag| && tag[x] != tag[y]
    ensures |Members(tag[x := tag[y]][y := tag[x]], c)| == |Members(tag, c)|
  {
    var swapped := tag[x := tag[y]][y := tag[x]];
    var before, after := Members(tag, c), Members(swapped, c);
    forall i ensures i in after <==> if i == x then tag[y] == c else if i == y then tag[x] == c else i in before {
    }
    assert (x in before <==> tag[x] == c) && (y in before <==> tag[y] == c);
    hide Members;
    if c == tag[y] {
      assert after == before - {y} + {x};
    } else if c == tag[x] {
      assert after == before - {x} + {y};
    } else {
      assert after == before;
    }
  }

  lemma SwapSpread(ss: seq<Tokens>, tag: seq<nat>, tol: int, x: nat, y: nat)
    requires ByLength(ss) && |tag| == |ss| && Spread(ss, tag, tol)
    requires 0 < x < y < |ss| && tag[y] == tag[0] && tag[x] != tag[0]
    requires |ss[x]| - |ss[0]| <= tol
    ensures Spread(ss, tag[x := tag[y]][y := tag[x]], tol)
  {
  }

  /** How many members of the first sequence's group lie beyond position `g`. */
  function Beyond(tag: seq<nat>, g: nat): set<int>
    requires tag != []
  {
    set i | g <= i < |tag| && tag[i] == tag[0]
  }

  /** Any grouping can be rearranged so that the first sequence's group lies within the greedy first group. */
  lemma PullForward(ss: seq<Tokens>, tag: seq<nat>, k: nat, cap: nat, tol: int, g: nat) returns (better: seq<nat>)
    requires ByLength(ss) && Grouping(ss, tag, k, cap, tol) && 0 < g <= |ss|
    requires forall i | 0 <= i < g :: |ss[i]| - |ss[0]| <= tol
    requires g < |ss| ==> g >= cap || |ss[g]| - |ss[0]| > tol
    ensures Grouping(ss, better, k, cap, tol)
    ensures forall i | g <= i < |ss| :: better[i] != better[0]
    decreases Beyond(tag, g)
  {
    if Beyond(tag, g) == {} {
      better := tag;
      forall i | g <= i < |ss| ensures better[i] != better[0] {
        assert i !in Beyond(tag, g);
      }
    } else {
      var y :| y in Beyond(tag, g);
      var x := Outsider(ss, tag, k, cap, tol, g, y);
      var swapped := tag[x := tag[y]][y := tag[x]];
      ExchangeKeepsGrouping(ss, tag, k, cap, tol, x, y);
      assert Beyond(swapped, g) == Beyond(tag, g) - {y};
      better := PullForward(ss, swapped, k, cap, tol, g);
    }
  }

  /** If the first group reaches beyond a full greedy group, some sequence inside that one is labelled otherwise. */
  lemma Outsider(ss: seq<Tokens>, tag: seq<nat>, k: nat, cap: nat, tol: int, g: nat, y: int) returns (x: nat)
    requires ByLength(ss) && Grouping(ss, tag, k, cap, tol) && 0 < g <= |ss|
    requires g < |ss| ==> g >= cap || |ss[g]| - |ss[0]| > tol
    requires g <= y < |ss| && tag[y] == tag[0]
    ensures 0 < x < g && tag[x] != tag[0]
  {
    assert |ss[y]| - |ss[0]| <= tol && |ss[g]| <= |ss[y]|;
    if forall i | 0 <= i < g :: tag[i] == tag[0] {
      FrontAndOne(tag, g, y);
    }
    x :| 0 <= x < g && tag[x] != tag[0];
  }

  lemma FrontAndOne(tag: seq<nat>, g: nat, y: int)
    requires g <= y < |tag| && tag[y] == tag[0] && forall i | 0 <= i < g :: tag[i] == tag[0]
    ensures |Members(tag, tag[0])| > g
  {
    var front := UpTo(g);
    assert front + {y} <= Members(tag, tag[0]);
    SubsetSize(front + {y}, Members(tag, tag[0]));
  }

  function UpTo(n: nat): (s: set<int>)
    ensures |s| == n && forall i :: i in s <==> 0 <= i < n
  {
    if n == 0 then {} else UpTo(n - 1) + {n - 1}
  }

  /** Without the greedy first group, one tag is free; renaming the last tag to it leaves `k - 1`. */
  lemma DropFirstGroup(ss: seq<Tokens>, tag: seq<nat>, k: nat, cap: nat, tol: int, g: nat) returns (rest: seq<nat>)
    requires Grouping(ss, tag, k, cap, tol) && 0 < g <= |ss|
    requires forall i | g <= i < |ss| :: tag[i] != tag[0]
    ensures k > 0 && Grouping(ss[g..], rest, k - 1, cap, tol)
  {
    var free := tag[0];
    rest := seq(|ss| - g, i requires 0 <= i < |ss| - g => if tag[g + i] == k - 1 then free else tag[g + i]);
    forall c: nat ensures |Members(rest, c)| <= cap {
      var source := if c == free then k - 1 else c;
      if c < k - 1 || c == free {
        ShiftSize(tag, rest, g, source, c);
      } else {
        assert Members(rest, c) == {};
        assert |Members(tag, c)| >= 0;
      }
    }
    forall i, j | 0 <= i < |ss[g..]| && 0 <= j < |ss[g..]| && rest[i] == rest[j]
      ensures |ss[g..][i]| - |ss[g..][j]| <= tol
    {
      assert tag[g + i] == tag[g + j];
    }
  }

  lemma ShiftSize(tag: seq<nat>, rest: seq<nat>, g: nat, source: nat, c: nat)
    requires |rest| + g == |tag|
    requires forall i | 0 <= i < |rest| :: rest[i] == c ==> tag[g + i] == source
    ensures |Members(rest, c)| <= |Members(tag, source)|
  {
    ShiftedSize(Members(rest, c), Members(tag, source), g);
  }

  lemma ShiftedSize(a: set<int>, b: set<int>, g: int)
    requires forall i | i in a :: g + i in b
    ensures |a| <= |b|
    decreases a
  {
    if a == {} {
    } else {
      var i := Pick(a);
      ShiftedSize(a - {i}, b - {g + i}, g);
    }
  }

  /** No grouping of the length-sorted sequences has fewer groups than the greedy one. */
  lemma {:induction false} GreedyOptimalSorted(ss: seq<Tokens>, tag: seq<nat>, k: nat, cap: nat, tol: int)
    requires ByLength(ss) && cap >= 1 && tol >= 0
    requires Grouping(ss, tag, k, cap, tol)
    ensures |GreedyGroups(ss, cap, tol)| <= k
    decreases |ss|
  {
    if ss == [] {
    } else {
      var g := FirstGroup(ss, cap, tol);
      GroupFromWithin(ss, 1, cap, tol);
      hide FirstGroup, Grouping;
      var better := PullForward(ss, tag, k, cap, tol, g);
      assert |better| == |ss| by { GroupingLength(ss, better, k, cap, tol); }
      var rest := DropFirstGroup(ss, better, k, cap, tol, g);
      GreedyOptimalSorted(ss[g..], rest, k - 1, cap, tol);
    }
  }

  lemma GroupingLength(ss: seq<Tokens>, tag: seq<nat>, k: nat, cap: nat, tol: int)
    requires Grouping(ss, tag, k, cap, tol)
    ensures |tag| == |ss|
  {
  }

  /** The greedy grouping as labels: each group's number, in order. */
  function GreedyTags(ss: seq<Tokens>, cap: nat, tol: int): (tag: seq<nat>)
    ensures |tag| == |ss|
  {
    if ss == [] then []
    else
      var g := FirstGroup(ss, cap, tol);
      WithFirst(g, GreedyTags(ss[g..], cap, tol))
  }

  /** A new group of `g` in front of labelled sequences. */
  function WithFirst(g: nat, rest: seq<nat>): (tag: seq<nat>)
    ensures |tag| == g + |rest|
  {
    seq(g + |rest|, i requires 0 <= i < g + |rest| => if i < g then 0 else rest[i - g] + 1)
  }

  lemma WithFirstSize(g: nat, rest: seq<nat>, c: nat)
    ensures c == 0 ==> |Members(WithFirst(g, rest), 0)| == g
    ensures c > 0 ==> |Members(WithFirst(g, rest), c)| <= |Members(rest, c - 1)|
  {
    var tag := WithFirst(g, rest);
    if c == 0 {
      assert Members(tag, 0) == UpTo(g);
    } else {
      var back: int := g;
      ShiftedSize(Members(tag, c), Members(rest, c - 1), -back);
    }
  }

  lemma WithFirstSizes(g: nat, rest: seq<nat>, cap: nat)
    requires g <= cap && Sized(rest, cap)
    ensures Sized(WithFirst(g, rest), cap)
  {
    hide Members, WithFirst;
    forall c: nat ensures |Members(WithFirst(g, rest), c)| <= cap {
      WithFirstSize(g, rest, c);
    }
  }

  lemma WithFirstSpread(ss: seq<Tokens>, g: nat, rest: seq<nat>, tol: int)
    requires g <= |ss| && ByLength(ss) && |rest| == |ss[g..]| && Spread(ss[g..], rest, tol)
    requires forall i | 0 <= i < g :: |ss[i]| - |ss[0]| <= tol
    ensures Spread(ss, WithFirst(g, rest), tol)
  {
    var tag := WithFirst(g, rest);
    forall i, j | 0 <= i < |ss| && 0 <= j < |ss| && tag[i] == tag[j] ensures |ss[i]| - |ss[j]| <= tol {
      if i >= g && j >= g {
        assert rest[i - g] == rest[j - g];
        assert ss[g..][i - g] == ss[i] && ss[g..][j - g] == ss[j];
      } else {
        assert |ss[0]| <= |ss[j]|;
      }
    }
  }

  lemma GreedyCount(ss: seq<Tokens>, cap: nat, tol: int)
    requires ss != []
    ensures |GreedyGroups(ss, cap, tol)| == 1 + |GreedyGroups(ss[FirstGroup(ss, cap, tol)..], cap, tol)|
  {
    hide FirstGroup;
  }

  /** The greedy grouping is itself such a grouping, with as many groups as there are batches. */
  lemma {:induction false} GreedyIsGrouping(ss: seq<Tokens>, cap: nat, tol: int)
    requires ByLength(ss) && cap >= 1 && tol >= 0
    ensures Grouping(ss, GreedyTags(ss, cap, tol), |GreedyGroups(ss, cap, tol)|, cap, tol)
    decreases |ss|
  {
    if ss == [] {
      assert forall c: nat :: Members([], c) == {};
    } else {
      var g := FirstGroup(ss, cap, tol);
      GroupFromWithin(ss, 1, cap, tol);
      GreedyIsGrouping(ss[g..], cap, tol);
      hide FirstGroup, Members, Spread, GreedyGroups;
      GreedyCount(ss, cap, tol);
      OneGroupMore(ss, g, GreedyTags(ss[g..], cap, tol), |GreedyGroups(ss[g..], cap, tol)|, cap, tol);
    }
  }

  lemma OneGroupMore(ss: seq<Tokens>, g: nat, rest: seq<nat>, k: nat, cap: nat, tol: int)
    requires ByLength(ss) && g <= |ss| && g <= cap
    requires forall i | 0 <= i < g :: |ss[i]| - |ss[0]| <= tol
    requires Grouping(ss[g..], rest, k, cap, tol)
    ensures Grouping(ss, WithFirst(g, rest), 1 + k, cap, tol)
  {
    hide Members, Spread;
    WithFirstSizes(g, rest, cap);
    WithFirstSpread(ss, g, rest, tol);
  }

  /** Labels in the order of the sorted list. */
  function Relabel(tag: seq<nat>, order: seq<int>): seq<nat>
    requires forall i | 0 <= i < |order| :: 0 <= order[i] < |tag|
  {
    seq(|order|, i requires 0 <= i < |order| => tag[order[i]])
  }

  lemma ThroughOrderSize(a: set<int>, b: set<int>, order: seq<int>)
    requires forall i, j | 0 <= i < j < |order| :: order[i] != order[j]
    requires forall i | i in a :: 0 <= i < |order| && order[i] in b
    ensures |a| <= |b|
    decreases a
  {
    if a == {} {
    } else {
      var i := Pick(a);
      ThroughOrderSize(a - {i}, b - {order[i]}, order);
    }
  }

  lemma SortedGrouping(sequences: seq<Tokens>, order: seq<int>, tag: seq<nat>, k: nat, cap: nat, tol: int)
    requires StableOrder(sequences, order) && Grouping(sequences, tag, k, cap, tol)
    ensures Grouping(Arranged(sequences, order), Relabel(tag, order), k, cap, tol)
  {
    var sorted := Relabel(tag, order);
    assert forall i, j | 0 <= i < j < |order| :: order[i] != order[j];
    forall c: nat ensures |Members(sorted, c)| <= cap {
      ThroughOrderSize(Members(sorted, c), Members(tag, c), order);
      assert |Members(tag, c)| <= cap;
    }
    forall i, j | 0 <= i < |order| && 0 <= j < |order| && sorted[i] == sorted[j]
      ensures |Arranged(sequences, order)[i]| - |Arranged(sequences, order)[j]| <= tol
    {
      assert tag[order[i]] == tag[order[j]];
    }
  }

  /**
   * The greedy grouping uses the minimum number of batches: every grouping of the input, contiguous or not, with
   * at most `cap` sequences per group and lengths within `tol`, has at least as many groups.
   */
  lemma GreedyOptimal(sequences: seq<Tokens>, order: seq<int>, tag: seq<nat>, k: nat, cap: nat, tol: int)
    requires StableOrder(sequences, order) && cap >= 1 && tol >= 0
    requires Grouping(sequences, tag, k, cap, tol)
    ensures |GreedyGroups(Arranged(sequences, order), cap, tol)| <= k
  {
    SortedGrouping(sequences, order, tag, k, cap, tol);
    ArrangedByLength(sequences, order);
    hide StableOrder, Grouping, Arranged, GreedyGroups;
    GreedyOptimalSorted(Arranged(sequences, order), Relabel(tag, order), k, cap, tol);
  }
}
