/**
 * The memo caches never change a result: over every interleaving of tokenizer life cycles and lookups by any
 * number of threads, a cached split is the split the merge loop would compute now.
 */
module CacheCoherence {
  import opened Bytes
  import opened Units
  import opened Merging
  import opened ThreadCache
  import opened Encoding

  /** The mode and the rules each cache key stands for. */
  type Meanings = map<nat, (Mode, seq<Pair>)>

  function SplitFor(meaning: (Mode, seq<Pair>), word: Str): Word {
    SplitWord(meaning.0, meaning.1, word)
  }

  /** Everything remembered under a key is what the merge loop computes for that key's mode and rules. */
  ghost predicate Coherent(cs: Caches, meanings: Meanings) {
    forall i | 0 <= i < |cs| :: cs[i].key in meanings && EntryCoherent(cs[i], meanings[cs[i].key])
  }

  ghost predicate EntryCoherent(e: Entry, meaning: (Mode, seq<Pair>)) {
    forall w | w in e.words :: e.words[w] == SplitFor(meaning, w)
  }

  lemma LookupCoherent(cs: Caches, key: nat, meanings: Meanings, word: Str)
    requires Coherent(cs, meanings) && key in meanings
    ensures var r := Lookup(cs, key, word, SplitFor(meanings[key], word));
      r.0 == SplitFor(meanings[key], word) && Coherent(r.1, meanings)
  {
    hide SplitFor;
    TouchCoherent(cs, key, meanings);
    var touched := Touch(cs, key);
    hide Touch;
    var last := |touched| - 1;
    var words := touched[last].words;
    var room := if |words| >= MAX_CACHED_WORDS then map[] else words;
    assert EntryCoherent(touched[last], meanings[key]);
    assert EntryCoherent(Entry(key, room[word := SplitFor(meanings[key], word)]), meanings[key]);
  }

  lemma TouchCoherent(cs: Caches, key: nat, meanings: Meanings)
    requires Coherent(cs, meanings) && key in meanings
    ensures Coherent(Touch(cs, key), meanings)
  {
  }

  /** Giving a meaning to a new key disturbs nothing. */
  lemma MoreMeanings(cs: Caches, meanings: Meanings, key: nat, meaning: (Mode, seq<Pair>))
    requires Coherent(cs, meanings) && key !in meanings
    ensures Coherent(cs, meanings[key := meaning])
  {
  }

  // ------------------------------------------------------- the whole process

  datatype Tok = Tok(mode: Mode, merges: seq<Pair>, key: nat)

  /** The key counter, the live tokenizers by address, and each thread's cache. */
  datatype System = System(next: nat, toks: map<nat, Tok>, threads: map<nat, Caches>)

  /** What changes a tokenizer's rules or settings in place. */
  datatype Change =
    | Renormalizing                                  // set_normalization
    | Building(learned: seq<Pair>)                   // one new key per rule; none if the texts are refused
    | Reloading(mode: Mode, merges: seq<Pair>)       // whatever was parsed, to the end or up to an exception

  /** A new tokenizer, and the key counter after it. */
  function Constructed(mode: Mode, next: nat): (Tok, nat) {
    (Tok(mode, [], next), next + 1)
  }

  /** A tokenizer after a change, and the key counter. */
  function Altered(t: Tok, next: nat, change: Change): (Tok, nat) {
    match change
    case Renormalizing => (t.(key := next), next + 1)
    case Building(learned) =>
      if learned == [] then (t, next)
      else (Tok(t.mode, t.merges + learned, next + |learned| - 1), next + |learned|)
    case Reloading(mode, merges) => (Tok(mode, merges, next), next + 1)
  }

  datatype Op =
    | Construct(id: nat, mode: Mode)               // also at the address of a destroyed tokenizer
    | Copy(src: nat, dst: nat)                     // construction or assignment
    | Destroy(id: nat)
    | Alter(id: nat, change: Change)
    | Apply(thread: nat, id: nat, word: Str)
    | Probe(thread: nat, id: nat, words: seq<Str>) // measure_fertility: a temporary tokenizer with our rules

  function CachesOf(s: System, thread: nat): Caches {
    if thread in s.threads then s.threads[thread] else []
  }

  function ApplyAll(cs: Caches, t: Tok, words: seq<Str>): Caches
    decreases words
  {
    if words == [] then cs
    else if words[0] == [] then ApplyAll(cs, t, words[1..])
    else ApplyAll(Lookup(cs, t.key, words[0], SplitWord(t.mode, t.merges, words[0])).1, t, words[1..])
  }

  function Step(s: System, op: Op): System {
    match op
    case Construct(id, mode) =>
      var (t, next) := Constructed(mode, s.next);
      s.(next := next, toks := s.toks[id := t])
    case Copy(src, dst) => if src in s.toks then s.(toks := s.toks[dst := s.toks[src]]) else s
    case Destroy(id) => s.(toks := s.toks - {id})
    case Alter(id, change) =>
      if id in s.toks then
        var (t, next) := Altered(s.toks[id], s.next, change);
        s.(next := next, toks := s.toks[id := t])
      else s
    case Apply(thread, id, word) =>
      if id in s.toks then s.(threads := s.threads[thread := ApplyAll(CachesOf(s, thread), s.toks[id], [word])]) else s
    case Probe(thread, id, words) =>
      if id in s.toks then
        var probe := s.toks[id].(key := s.next);
        s.(next := s.next + 1, threads := s.threads[thread := ApplyAll(CachesOf(s, thread), probe, words)])
      else s
  }

  const START: System := System(1, map[], map[])

  function Run(ops: seq<Op>): System {
    if ops == [] then START else Step(Run(ops[..|ops| - 1]), ops[|ops| - 1])
  }

  ghost predicate Inv(s: System, meanings: Meanings) {
    && (forall k | k in meanings :: k < s.next)
    && (forall id | id in s.toks :: Means(s.toks[id], meanings))
    && (forall th | th in s.threads :: Coherent(s.threads[th], meanings))
  }

  ghost predicate Means(t: Tok, meanings: Meanings) {
    t.key in meanings && meanings[t.key] == (t.mode, t.merges)
  }

  lemma {:induction false} ApplyAllAppend(cs: Caches, t: Tok, a: seq<Str>, b: seq<Str>)
    ensures ApplyAll(cs, t, a + b) == ApplyAll(ApplyAll(cs, t, a), t, b)
    decreases a
  {
    hide Lookup, SplitWord;
    if a == [] {
      assert a + b == b;
    } else {
      assert (a + b)[1..] == a[1..] + b;
      var next := if a[0] == [] then cs else Lookup(cs, t.key, a[0], SplitWord(t.mode, t.merges, a[0])).1;
      ApplyAllAppend(next, t, a[1..], b);
    }
  }

  lemma ApplyOne(cs: Caches, t: Tok, word: Str)
    ensures ApplyAll(cs, t, []) == cs
    ensures ApplyAll(cs, t, [word]) ==
            if word == [] then cs else Lookup(cs, t.key, word, SplitWord(t.mode, t.merges, word)).1
  {
    hide Lookup, SplitWord;
    assert [word][1..] == [];
  }

  lemma {:induction false} ApplyAllCoherent(cs: Caches, t: Tok, words: seq<Str>, meanings: Meanings)
    requires Coherent(cs, meanings) && Means(t, meanings)
    ensures Coherent(ApplyAll(cs, t, words), meanings)
    decreases words
  {
    hide Coherent, Lookup;
    if words == [] {
    } else if words[0] == [] {
      ApplyAllCoherent(cs, t, words[1..], meanings);
    } else {
      LookupCoherent(cs, t.key, meanings, words[0]);
      ApplyAllCoherent(Lookup(cs, t.key, words[0], SplitWord(t.mode, t.merges, words[0])).1, t, words[1..], meanings);
    }
  }

  /** A key that was never handed out can be given any meaning. */
  lemma NewMeaning(s: System, meanings: Meanings, key: nat, t: Tok) returns (more: Meanings)
    requires Inv(s, meanings) && key >= s.next && t.key == key
    ensures more == meanings[key := (t.mode, t.merges)]
    ensures Means(t, more) && forall id | id in s.toks :: Means(s.toks[id], more)
    ensures forall th | th in s.threads :: Coherent(s.threads[th], more)
    ensures forall k | k in more :: k <= key
  {
    hide Coherent;
    more := meanings[key := (t.mode, t.merges)];
    forall th | th in s.threads ensures Coherent(s.threads[th], more) {
      MoreMeanings(s.threads[th], meanings, key, (t.mode, t.merges));
    }
  }

  lemma CachesOfCoherent(s: System, thread: nat, meanings: Meanings)
    requires forall th | th in s.threads :: Coherent(s.threads[th], meanings)
    ensures Coherent(CachesOf(s, thread), meanings)
  {
  }

  lemma StepKeepsInv(s: System, op: Op, meanings: Meanings) returns (more: Meanings)
    requires Inv(s, meanings)
    ensures Inv(Step(s, op), more)
  {
    hide Coherent, ApplyAll;
    more := meanings;
    var next := Step(s, op);
    match op
    case Construct(id, mode) => more := NewMeaning(s, meanings, s.next, next.toks[id]);
    case Copy(src, dst) =>
    case Destroy(id) =>
    case Alter(id, change) =>
      if id in s.toks && next.toks[id] != s.toks[id] {
        more := NewMeaning(s, meanings, next.toks[id].key, next.toks[id]);
      }
    case Apply(thread, id, word) =>
      if id in s.toks {
        CachesOfCoherent(s, thread, more);
        ApplyAllCoherent(CachesOf(s, thread), s.toks[id], [word], more);
      }
    case Probe(thread, id, words) =>
      if id in s.toks {
        var probe := s.toks[id].(key := s.next);
        more := NewMeaning(s, meanings, s.next, probe);
        CachesOfCoherent(s, thread, more);
        ApplyAllCoherent(CachesOf(s, thread), probe, words, more);
      }
  }

  lemma {:induction false} RunKeepsInv(ops: seq<Op>) returns (meanings: Meanings)
    ensures Inv(Run(ops), meanings)
  {
    if ops == [] {
      meanings := map[];
    } else {
      var before := RunKeepsInv(ops[..|ops| - 1]);
      meanings := StepKeepsInv(Run(ops[..|ops| - 1]), ops[|ops| - 1], before);
    }
  }

  /** After every run, a lookup by any thread in any live tokenizer returns the uncached split. */
  lemma CachedIsUncached(ops: seq<Op>, thread: nat, id: nat, word: Str)
    requires id in Run(ops).toks
    ensures var s := Run(ops);
      var t := s.toks[id];
      var split := SplitWord(t.mode, t.merges, word);
      Lookup(CachesOf(s, thread), t.key, word, split).0 == split
  {
    hide Run, Lookup, Coherent;
    var meanings := RunKeepsInv(ops);
    CachesOfCoherent(Run(ops), thread, meanings);
    LookupCoherent(CachesOf(Run(ops), thread), Run(ops).toks[id].key, meanings, word);
  }

  // ------------------------------------------- why each change renews the key

  /** Without a new key a changed tokenizer would be served the splits of its old rules. */
  lemma StaleWithoutNewKey(word: Str, before: seq<Pair>, after: seq<Pair>, mode: Mode, key: nat)
    requires word != [] && SplitWord(mode, before, word) != SplitWord(mode, after, word)
    ensures var cs := Lookup([], key, word, SplitWord(mode, before, word)).1;
      Lookup(cs, key, word, SplitWord(mode, after, word)).0 != SplitWord(mode, after, word)
  {
  }
}
