/** How often something occurs: the size of the set of places where it stands. */
module Occurrences {
  import opened FiniteSets
  import opened Sequences

  function PlacesIn<T(==)>(xs: seq<T>, x: T): set<int> {
    set i | 0 <= i < |xs| && xs[i] == x
  }

  /** Where `x` stands in the lists: the list and the position in it. */
  function Places<T(==)>(lists: seq<seq<T>>, x: T): set<(int, int)> {
    set i, j | 0 <= i < |lists| && 0 <= j < |lists[i]| && lists[i][j] == x :: (i, j)
  }

  lemma {:induction false} PlacesInCount<T>(xs: seq<T>, x: T)
    ensures multiset(xs)[x] == |PlacesIn(xs, x)|
  {
    if xs == [] {
    } else {
      var n := |xs| - 1;
      PlacesInCount(xs[..n], x);
      assert xs == xs[..n] + [xs[n]];
      assert PlacesIn(xs, x) == PlacesIn(xs[..n], x) + if xs[n] == x then {n} else {};
    }
  }

  lemma RowSize(a: set<int>, row: int)
    ensures |set j | j in a :: (row, j)| == |a|
    decreases a
  {
    var paired := set j | j in a :: (row, j);
    if a == {} {
    } else {
      var j := Pick(a);
      RowSize(a - {j}, row);
      assert paired == (set k | k in a - {j} :: (row, k)) + {(row, j)};
    }
  }

  /** An element occurs in the flattened lists as often as there are places where it stands. */
  lemma {:induction false} PlacesCount<T>(lists: seq<seq<T>>, x: T)
    ensures multiset(Flatten(lists))[x] == |Places(lists, x)|
  {
    if lists == [] {
    } else {
      var n := |lists| - 1;
      PlacesCount(lists[..n], x);
      PlacesInCount(lists[n], x);
      RowSize(PlacesIn(lists[n], x), n);
      FlattenLast(lists[..n], lists[n]);
      assert lists == lists[..n] + [lists[n]];
      PlacesLast(lists, x);
    }
  }

  lemma PlacesLast<T>(lists: seq<seq<T>>, x: T)
    requires lists != []
    ensures var n := |lists| - 1;
      var row := set j | j in PlacesIn(lists[n], x) :: (n, j);
      Places(lists, x) == Places(lists[..n], x) + row && Places(lists[..n], x) !! row
  {
  }
}
