/**
 * The per-thread memo cache of `apply_bpe`: the last few tokenizer states a thread used, each with the words
 * it has split under that state.
 */
module ThreadCache {
  import opened Bytes
  import opened Merging

  const CACHED_STATES: nat := 4
  const MAX_CACHED_WORDS: nat := 65536

  type WordCache = map<Str, Word>
  datatype Entry = Entry(key: nat, words: WordCache)

  /** Most recently used last. */
  type Caches = seq<Entry>

  predicate HoldsKey(cs: Caches, key: nat) {
    exists i | 0 <= i < |cs| :: cs[i].key == key
  }

  function Position(cs: Caches, key: nat): (i: nat)
    requires HoldsKey(cs, key)
    ensures i < |cs| && cs[i].key == key
    ensures forall j | 0 <= j < i :: cs[j].key != key
  {
    if cs[0].key == key then 0 else 1 + Position(cs[1..], key)
  }

  /** Move the state to the back, or start it there, dropping the oldest state of a full list. */
  function Touch(cs: Caches, key: nat): (r: Caches)
    ensures r != [] && r[|r| - 1].key == key
  {
    if HoldsKey(cs, key) then
      var i := Position(cs, key);
      cs[..i] + cs[i + 1..] + [cs[i]]
    else
      (if |cs| >= CACHED_STATES then cs[1..] else cs) + [Entry(key, map[])]
  }

  /** What a lookup returns and leaves behind; `computed` is the split used on a miss. */
  function Lookup(cs: Caches, key: nat, word: Str, computed: Word): (Word, Caches) {
    var touched := Touch(cs, key);
    var last := |touched| - 1;
    var words := touched[last].words;
    if word in words then (words[word], touched)
    else
      var room := if |words| >= MAX_CACHED_WORDS then map[] else words;
      (computed, touched[last := Entry(key, room[word := computed])])
  }

  /** One thread's cache. */
  class ThreadCaches {
    var caches: Caches

    constructor ()
      ensures caches == []
    {
      caches := [];
    }

    /** Bring the state to the back of the list. */
    method Find(key: nat)
      modifies this
      ensures caches == Touch(old(caches), key)
    {
      var found := false;
      var i := 0;
      while i < |caches| && !found
        invariant 0 <= i <= |caches| == |old(caches)|
        invariant forall j | 0 <= j < i :: old(caches)[j].key != key
        invariant !found ==> caches == old(caches)
        invariant found ==> i < |caches| && old(caches)[i].key == key && HoldsKey(old(caches), key)
        invariant found ==> caches == old(caches)[..i] + old(caches)[i + 1..] + [old(caches)[i]]
        decreases !found, |caches| - i
      {
        if caches[i].key == key {
          found := true;
          assert HoldsKey(old(caches), key);
          if i + 1 != |caches| {
            caches := caches[..i] + caches[i + 1..] + [caches[i]];
          }
        } else {
          i := i + 1;
        }
      }
      if !found {
        assert !HoldsKey(old(caches), key);
        if |caches| >= CACHED_STATES {
          caches := caches[1..];
        }
        caches := caches + [Entry(key, map[])];
      }
    }

    /** Remember a freshly computed split under the state at the back. */
    method Remember(word: Str, tokens: Word)
      requires caches != []
      modifies this
      ensures var last := |old(caches)| - 1;
        var words := old(caches)[last].words;
        var room := if |words| >= MAX_CACHED_WORDS then map[] else words;
        caches == old(caches)[last := Entry(old(caches)[last].key, room[word := tokens])]
    {
      var last := |caches| - 1;
      var cache := caches[last].words;
      if |cache| >= MAX_CACHED_WORDS {
        cache := map[];
      }
      caches := caches[last := Entry(caches[last].key, cache[word := tokens])];
    }
  }

  // -------------------------------------------------- most recently used

  function Keys(cs: Caches): seq<nat> {
    seq(|cs|, i requires 0 <= i < |cs| => cs[i].key)
  }

  function Without(ks: seq<nat>, k: nat): (r: seq<nat>)
    ensures |r| <= |ks|
  {
    if ks == [] then [] else Without(ks[..|ks| - 1], k) + if ks[|ks| - 1] == k then [] else [ks[|ks| - 1]]
  }

  /** The last `n` different keys of a history, in order of last use. */
  function RecentlyUsed(ks: seq<nat>, n: nat): seq<nat>
    decreases n
  {
    if n == 0 || ks == [] then []
    else
      var k := ks[|ks| - 1];
      RecentlyUsed(Without(ks[..|ks| - 1], k), n - 1) + [k]
  }

  datatype Use = Use(key: nat, word: Str, computed: Word)

  function Serve(cs: Caches, uses: seq<Use>): Caches {
    if uses == [] then cs
    else
      var u := uses[|uses| - 1];
      Lookup(Serve(cs, uses[..|uses| - 1]), u.key, u.word, u.computed).1
  }

  function History(uses: seq<Use>): seq<nat> {
    seq(|uses|, i requires 0 <= i < |uses| => uses[i].key)
  }

  /** What a bounded recency list keeps when `k` is about to move to its back. */
  function Keep(ks: seq<nat>, k: nat, n: nat): seq<nat>
    requires n > 0
  {
    if k in ks then Without(ks, k) else if |ks| >= n then ks[1..] else ks
  }

  predicate NoRepeats(ks: seq<nat>) {
    forall i, j | 0 <= i < j < |ks| :: ks[i] != ks[j]
  }

  lemma {:induction false} WithoutAppend(a: seq<nat>, b: seq<nat>, k: nat)
    ensures Without(a + b, k) == Without(a, k) + Without(b, k)
  {
    if b == [] {
      assert a + b == a;
    } else {
      var n := |b| - 1;
      assert (a + b)[..|a + b| - 1] == a + b[..n];
      WithoutAppend(a, b[..n], k);
    }
  }

  lemma {:induction false} WithoutHolds(ks: seq<nat>, k: nat)
    ensures forall x :: x in Without(ks, k) <==> x in ks && x != k
    ensures k !in ks ==> Without(ks, k) == ks
  {
    if ks == [] {
    } else {
      var n := |ks| - 1;
      WithoutHolds(ks[..n], k);
      assert ks == ks[..n] + [ks[n]];
    }
  }

  lemma {:induction false} WithoutCommutes(ks: seq<nat>, a: nat, b: nat)
    ensures Without(Without(ks, a), b) == Without(Without(ks, b), a)
  {
    if ks == [] {
    } else {
      var n := |ks| - 1;
      var x := ks[n];
      WithoutCommutes(ks[..n], a, b);
      WithoutAppend(Without(ks[..n], a), if x == a then [] else [x], b);
      WithoutAppend(Without(ks[..n], b), if x == b then [] else [x], a);
      WithoutOne(x, a);
      WithoutOne(x, b);
    }
  }

  lemma WithoutOne(x: nat, k: nat)
    ensures Without([x], k) == if x == k then [] else [x]
    ensures Without([], k) == []
  {
  }

  /** How the recency list of a history without `k` follows from that of the full history. */
  lemma {:induction false} RecentlyUsedWithout(ks: seq<nat>, k: nat, n: nat)
    requires n > 0
    ensures RecentlyUsed(Without(ks, k), n - 1) == Keep(RecentlyUsed(ks, n), k, n)
    decreases |ks|
  {
    if ks != [] {
      hide Without, RecentlyUsed, Keep;
      var m := |ks| - 1;
      var pre, x := ks[..m], ks[m];
      assert ks == pre + [x];
      var before := Without(pre, x);
      var r := RecentlyUsed(before, n - 1);
      RecentlyUsedBehind(pre, x, n);
      RecentlyUsedFrom(before, n - 1);
      WithoutHolds(pre, x);
      WithoutLast(pre, x, k);
      if x == k {
        KeepLast(r, x, n);
      } else if n == 1 {
        RecentlyUsedNone(before);
        RecentlyUsedNone(Without(ks, k));
        KeepNone(r, x, k);
      } else {
        RecentlyUsedWithout(before, k, n - 1);
        WithoutCommutes(pre, k, x);
        RecentlyUsedBehind(Without(pre, k), x, n - 1);
        KeepBehind(r, x, k, n);
      }
    } else {
      assert RecentlyUsed(ks, n) == [] && Without(ks, k) == [];
    }
  }

  lemma WithoutLast(pre: seq<nat>, x: nat, k: nat)
    ensures Without(pre + [x], k) == if x == k then Without(pre, k) else Without(pre, k) + [x]
  {
  }

  lemma RecentlyUsedEmpty(n: nat)
    ensures RecentlyUsed([], n) == []
  {
  }

  lemma RecentlyUsedNone(ks: seq<nat>)
    ensures RecentlyUsed(ks, 0) == []
  {
  }

  lemma RecentlyUsedBehind(ks: seq<nat>, x: nat, n: nat)
    requires n > 0
    ensures RecentlyUsed(ks + [x], n) == RecentlyUsed(Without(ks, x), n - 1) + [x]
  {
  }

  lemma KeepLast(r: seq<nat>, x: nat, n: nat)
    requires n > 0 && x !in r
    ensures Keep(r + [x], x, n) == r
  {
    WithoutAppend(r, [x], x);
    WithoutOne(x, x);
    WithoutHolds(r, x);
  }

  lemma KeepNone(r: seq<nat>, x: nat, k: nat)
    requires r == [] && x != k
    ensures Keep(r + [x], k, 1) == []
  {
  }

  lemma KeepBehind(r: seq<nat>, x: nat, k: nat, n: nat)
    requires n > 1 && x != k && |r| <= n - 1
    ensures Keep(r, k, n - 1) + [x] == Keep(r + [x], k, n)
  {
  }

  lemma {:induction false} RecentlyUsedFrom(ks: seq<nat>, n: nat)
    ensures |RecentlyUsed(ks, n)| <= n
    ensures forall k | k in RecentlyUsed(ks, n) :: k in ks
    ensures NoRepeats(RecentlyUsed(ks, n))
    decreases n
  {
    if n == 0 || ks == [] {
    } else {
      var m := |ks| - 1;
      RecentlyUsedFrom(Without(ks[..m], ks[m]), n - 1);
      WithoutHolds(ks[..m], ks[m]);
    }
  }

  /** The uses since the last use of `k`. */
  function Since(ks: seq<nat>, k: nat): (r: seq<nat>) {
    if ks == [] || ks[|ks| - 1] == k then [] else Since(ks[..|ks| - 1], k) + [ks[|ks| - 1]]
  }

  lemma {:induction false} SinceMeans(ks: seq<nat>, k: nat)
    requires k in ks
    ensures var n := |ks| - |Since(ks, k)| - 1;
      n >= 0 && ks == ks[..n] + [k] + Since(ks, k) && k !in Since(ks, k)
  {
    var m := |ks| - 1;
    if ks[m] == k {
    } else {
      SinceMeans(ks[..m], k);
      assert ks == ks[..m] + [ks[m]];
    }
  }

  lemma SinceLast(pre: seq<nat>, y: nat, k: nat)
    ensures Since(pre + [y], k) == if y == k then [] else Since(pre, k) + [y]
    ensures Since([], k) == []
  {
  }

  lemma {:induction false} SinceWithout(ks: seq<nat>, x: nat, k: nat)
    requires x != k
    ensures Since(Without(ks, x), k) == Without(Since(ks, k), x)
  {
    if ks == [] {
    } else {
      var m := |ks| - 1;
      var pre, y := ks[..m], ks[m];
      assert ks == pre + [y];
      SinceWithout(pre, x, k);
      hide Since, Without;
      WithoutLast(pre, y, x);
      WithoutLast(Since(pre, k), y, x);
      WithoutOne(y, x);
      SinceLast(pre, y, k);
      SinceLast(Without(pre, x), y, k);
    }
  }

  function Different(ks: seq<nat>): set<nat> {
    set k | k in ks
  }

  lemma DifferentWithout(ks: seq<nat>, x: nat)
    ensures Different(Without(ks, x)) == Different(ks) - {x}
    ensures Different(ks + [x]) == Different(ks) + {x}
  {
    WithoutHolds(ks, x);
  }

  lemma DifferentNone()
    ensures Different([]) == {}
  {
  }

  lemma SinceBehind(pre: seq<nat>, x: nat, k: nat)
    requires k != x
    ensures Different(Since(pre + [x], k)) == Different(Since(Without(pre, x), k)) + {x}
    ensures x !in Different(Since(Without(pre, x), k))
  {
    SinceLast(pre, x, k);
    SinceWithout(pre, x, k);
    DifferentWithout(Since(pre, k), x);
    hide Since, Without, Different;
  }

  lemma OtherBehind(pre: seq<nat>, x: nat, k: nat)
    requires k != x
    ensures k in Without(pre, x) <==> k in pre + [x]
  {
    WithoutHolds(pre, x);
  }

  /** What the list of recently used keys holds. */
  predicate RecentMeans(ks: seq<nat>, n: nat, k: nat) {
    k in RecentlyUsed(ks, n) <==> k in ks && |Different(Since(ks, k))| < n
  }

  lemma LastIsRecent(pre: seq<nat>, x: nat, n: nat)
    requires n > 0
    ensures RecentMeans(pre + [x], n, x)
  {
    RecentlyUsedBehind(pre, x, n);
    SinceLast(pre, x, x);
    DifferentNone();
    hide RecentlyUsed, Different, Since, Without;
  }

  lemma OtherIsRecent(pre: seq<nat>, x: nat, n: nat, k: nat)
    requires n > 0 && k != x && RecentMeans(Without(pre, x), n - 1, k)
    ensures RecentMeans(pre + [x], n, k)
  {
    RecentlyUsedBehind(pre, x, n);
    OtherBehind(pre, x, k);
    SinceBehind(pre, x, k);
    hide RecentlyUsed, Different, Since, Without;
  }

  /** A key is among the last `n` exactly if fewer than `n` different keys were used since its last use. */
  lemma {:induction false} RecentlyUsedMeans(ks: seq<nat>, n: nat, k: nat)
    ensures k in RecentlyUsed(ks, n) <==> k in ks && |Different(Since(ks, k))| < n
    decreases n
  {
    if n == 0 || ks == [] {
    } else {
      var pre, x := ks[..|ks| - 1], ks[|ks| - 1];
      assert ks == pre + [x];
      hide Without, Different, RecentlyUsed, Since;
      if k == x {
        LastIsRecent(pre, x, n);
      } else {
        RecentlyUsedMeans(Without(pre, x), n - 1, k);
        OtherIsRecent(pre, x, n, k);
      }
    }
  }

  lemma UsedSince(pre: seq<nat>, x: nat, k: nat, l: nat)
    requires k != x && (l == x || l in Since(Without(pre, x), k))
    ensures l in Since(pre + [x], k)
  {
    SinceLast(pre, x, k);
    SinceWithout(pre, x, k);
    if l != x {
      OtherBehind(Since(pre, k), x, l);
    }
    hide Since, Without;
  }

  lemma NotBehind(pre: seq<nat>, x: nat, n: nat, i: nat)
    requires i < |RecentlyUsed(Without(pre, x), n)|
    ensures RecentlyUsed(Without(pre, x), n)[i] != x
  {
    RecentlyUsedFrom(Without(pre, x), n);
    WithoutHolds(pre, x);
    hide RecentlyUsed, Without;
  }

  lemma BehindAt(r: seq<nat>, x: nat, i: nat, j: nat) returns (k: nat, l: nat)
    requires i < j < |r + [x]|
    ensures i < |r| && k == (r + [x])[i] == r[i] && l == (r + [x])[j] && (if j < |r| then l == r[j] else l == x)
  {
    k, l := r[i], if j < |r| then r[j] else x;
  }

  lemma OrderBehind(pre: seq<nat>, x: nat, n: nat, i: nat, j: nat)
    requires n > 0 && i < j < |RecentlyUsed(pre + [x], n)|
    requires var r := RecentlyUsed(Without(pre, x), n - 1);
      j < |r| ==> r[j] in Since(Without(pre, x), r[i])
    ensures RecentlyUsed(pre + [x], n)[j] in Since(pre + [x], RecentlyUsed(pre + [x], n)[i])
  {
    hide *;
    var r := RecentlyUsed(Without(pre, x), n - 1);
    RecentlyUsedBehind(pre, x, n);
    var k, l := BehindAt(r, x, i, j);
    NotBehind(pre, x, n - 1, i);
    UsedSince(pre, x, k, l);
  }

  /** Those behind a key in the list were used since its last use. */
  lemma {:induction false} RecentlyUsedOrder(ks: seq<nat>, n: nat, i: nat, j: nat)
    requires i < j < |RecentlyUsed(ks, n)|
    ensures RecentlyUsed(ks, n)[j] in Since(ks, RecentlyUsed(ks, n)[i])
    decreases n
  {
    var pre, x := ks[..|ks| - 1], ks[|ks| - 1];
    assert ks == pre + [x];
    RecentlyUsedBehind(pre, x, n);
    hide Without, RecentlyUsed, Since;
    if j < |RecentlyUsed(Without(pre, x), n - 1)| {
      RecentlyUsedOrder(Without(pre, x), n - 1, i, j);
    }
    OrderBehind(pre, x, n, i, j);
  }

  // --------------------------------------------------- every run of lookups

  lemma PositionWithout(cs: Caches, key: nat)
    requires HoldsKey(cs, key) && NoRepeats(Keys(cs))
    ensures var i := Position(cs, key);
      Keys(cs[..i] + cs[i + 1..]) == Without(Keys(cs), key)
  {
    var i := Position(cs, key);
    hide Position;
    var before, after := Keys(cs[..i]), Keys(cs[i + 1..]);
    assert Keys(cs) == before + [key] + after;
    forall j | 0 <= j < |after| ensures after[j] != key {
      assert Keys(cs)[i] != Keys(cs)[i + 1 + j];
    }
    assert Keys(cs[..i] + cs[i + 1..]) == before + after;
    hide Keys;
    WithoutMiddle(before, key, after);
  }

  lemma WithoutMiddle(before: seq<nat>, k: nat, after: seq<nat>)
    requires k !in before && k !in after
    ensures Without(before + [k] + after, k) == before + after
  {
    hide Without;
    WithoutAppend(before + [k], after, k);
    WithoutAppend(before, [k], k);
    WithoutOne(k, k);
    WithoutHolds(before, k);
    WithoutHolds(after, k);
  }

  lemma TouchKeys(cs: Caches, key: nat)
    requires NoRepeats(Keys(cs))
    ensures Keys(Touch(cs, key)) == Keep(Keys(cs), key, CACHED_STATES) + [key]
  {
    if HoldsKey(cs, key) {
      PositionWithout(cs, key);
      var i := Position(cs, key);
      assert Keys(cs)[i] == key;
      assert Keys(cs[..i] + cs[i + 1..] + [cs[i]]) == Keys(cs[..i] + cs[i + 1..]) + [key];
    } else {
      assert key !in Keys(cs) by {
        if j :| 0 <= j < |cs| && Keys(cs)[j] == key { assert HoldsKey(cs, key); }
      }
    }
  }

  /**
   * After any sequence of lookups a thread holds exactly the up to four states it used last, all different,
   * in order of last use.
   */
  lemma {:induction false} HoldsMostRecentlyUsed(uses: seq<Use>)
    ensures Keys(Serve([], uses)) == RecentlyUsed(History(uses), CACHED_STATES)
    ensures NoRepeats(Keys(Serve([], uses))) && |Serve([], uses)| <= CACHED_STATES == 4
  {
    hide Lookup, Touch, Keep, RecentlyUsed;
    if uses != [] {
      var n := |uses| - 1;
      var u, before := uses[n], uses[..n];
      HoldsMostRecentlyUsed(before);
      assert History(uses) == History(before) + [u.key];
      NextUse(Serve([], before), u, History(before));
    } else {
      RecentlyUsedEmpty(CACHED_STATES);
      assert History(uses) == [] && Keys(Serve([], uses)) == [];
    }
    RecentlyUsedFrom(History(uses), CACHED_STATES);
    assert |Keys(Serve([], uses))| == |Serve([], uses)|;
  }

  lemma NextUse(cs: Caches, u: Use, ks: seq<nat>)
    requires Keys(cs) == RecentlyUsed(ks, CACHED_STATES) && NoRepeats(Keys(cs))
    ensures Keys(Lookup(cs, u.key, u.word, u.computed).1) == RecentlyUsed(ks + [u.key], CACHED_STATES)
  {
    hide Lookup, Touch, Keep, RecentlyUsed, Keys;
    TouchKeys(cs, u.key);
    LookupKeys(cs, u.key, u.word, u.computed);
    RecentlyUsedWithout(ks, u.key, CACHED_STATES);
    RecentlyUsedBehind(ks, u.key, CACHED_STATES);
  }

  lemma LookupKeys(cs: Caches, key: nat, word: Str, computed: Word)
    ensures Keys(Lookup(cs, key, word, computed).1) == Keys(Touch(cs, key))
  {
  }

  ghost predicate Bounded(cs: Caches) {
    forall i | 0 <= i < |cs| :: |cs[i].words| <= MAX_CACHED_WORDS
  }

  lemma {:induction false} MemoryStaysBounded(uses: seq<Use>)
    ensures Bounded(Serve([], uses)) && MAX_CACHED_WORDS == 65536
  {
    if uses == [] {
    } else {
      var n := |uses| - 1;
      MemoryStaysBounded(uses[..n]);
      LookupBounded(Serve([], uses[..n]), uses[n].key, uses[n].word, uses[n].computed);
    }
  }

  lemma LookupBounded(cs: Caches, key: nat, word: Str, computed: Word)
    requires Bounded(cs)
    ensures Bounded(Lookup(cs, key, word, computed).1)
  {
  }
}
