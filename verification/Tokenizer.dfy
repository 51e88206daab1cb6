/** The tokenizer object: its fields and the methods that update or read them. */
module Tokenizer {
  import opened Bytes
  import opened Units
  import opened Merging
  import opened PairCounting
  import opened MergeLearning
  import opened PreTokenizing
  import opened Regex
  import opened Results
  import opened ThreadCache
  import opened Vocabulary
  import opened Encoding
  import opened CacheCoherence
  import opened Escaping
  import opened VocabFile

  /** The process-wide counter behind `new_cache_key`. */
  class CacheKeys {
    var next: nat

    constructor ()
      ensures next == 1
    {
      next := 1;
    }

    method NewKey() returns (key: nat)
      modifies this
      ensures key == old(next) && next == key + 1
    {
      key := next;
      next := next + 1;
    }
  }

  function FreshModel(mode: Mode, norm: Normalization): Model {
    Model(mode, norm, FRESH, [], {PAD, UNK, BOS, EOS}, 0, 1, 2, 3)
  }

  // ------------------------------------------------------------- merging

  /** The inner loop shared by `merge_tokens` and `apply_bpe`. */
  method MergeOnce(tokens: Word, first: Str, second: Str) returns (newTokens: Word)
    ensures newTokens == MergePass(tokens, (first, second))
  {
    newTokens := [];
    assert tokens[0..] == tokens;
    var i := 0;
    while i < |tokens|
      invariant 0 <= i <= |tokens|
      invariant newTokens + MergePass(tokens[i..], (first, second)) == MergePass(tokens, (first, second))
    {
      MergeStep(tokens, (first, second), i, newTokens);
      if i < |tokens| - 1 && tokens[i] == first && tokens[i + 1] == second {
        newTokens := newTokens + [first + second];
        i := i + 2;
      } else {
        newTokens := newTokens + [tokens[i]];
        i := i + 1;
      }
    }
  }

  lemma MergeStep(tokens: Word, p: Pair, i: nat, before: Word)
    requires i < |tokens|
    ensures before + MergePass(tokens[i..], p) ==
      if i < |tokens| - 1 && tokens[i] == p.0 && tokens[i + 1] == p.1
      then (before + [Merged(p)]) + MergePass(tokens[i + 2..], p)
      else (before + [tokens[i]]) + MergePass(tokens[i + 1..], p)
  {
  }

  method MergeTokens(wordTokens: array<Word>, first: Str, second: Str)
    modifies wordTokens
    ensures wordTokens[..] == MergeAll(old(wordTokens[..]), (first, second))
  {
    var w := 0;
    while w < wordTokens.Length
      invariant 0 <= w <= wordTokens.Length
      invariant forall k | 0 <= k < w :: wordTokens[k] == MergePass(old(wordTokens[k]), (first, second))
      invariant forall k | w <= k < wordTokens.Length :: wordTokens[k] == old(wordTokens[k])
    {
      var newTokens := MergeOnce(wordTokens[w], first, second);
      wordTokens[w] := newTokens;
      w := w + 1;
    }
  }

  method Split(mode: Mode, s: Str) returns (units: seq<Str>)
    ensures units == SplitUnits(mode, s)
  {
    if mode.UNICODE? {
      units := Utf8SplitCodepoints(s);
    } else {
      units := [];
      var i := 0;
      while i < |s|
        invariant 0 <= i <= |s| && units == SplitBytes(s[..i])
      {
        units := units + [[s[i]]];
        i := i + 1;
      }
      assert s[..i] == s;
    }
  }

  // --------------------------------------------------- appending to tables

  lemma {:induction false} AdmitBaseAppend(t: Tables, base: seq<Str>, u: Str, id: int)
    ensures AdmitBase(t, base + [u], id) == AdmitBase(t, base, id).Enter(u, id + |base|)
    decreases base
  {
    if base == [] {
      assert (base + [u])[1..] == [];
    } else {
      assert (base + [u])[1..] == base[1..] + [u];
      AdmitBaseAppend(t.Enter(base[0], id), base[1..], u, id + 1);
    }
  }

  lemma {:induction false} AdmitMergesAppend(t: Tables, merges: seq<Pair>, p: Pair)
    ensures var before := AdmitMerges(t, merges);
      AdmitMerges(t, merges + [p]) == before.Enter(Merged(p), |before.vocab|)
    decreases merges
  {
    if merges == [] {
      assert (merges + [p])[1..] == [];
    } else {
      assert (merges + [p])[1..] == merges[1..] + [p];
      AdmitMergesAppend(t.Enter(Merged(merges[0]), |t.vocab|), merges[1..], p);
    }
  }

  lemma LearnStep(words: seq<Word>, n: nat, p: Pair)
    requires n > 0 && IsBest(PairCounts(words), p)
    ensures Learn(words, n).merges == [p] + Learn(MergeAll(words, p), n - 1).merges
  {
    BestUnique(PairCounts(words), p, BestPair(words));
  }

  lemma LearnDone(words: seq<Word>, n: nat)
    requires n == 0 || PairCounts(words) == multiset{}
    ensures Learn(words, n).merges == []
  {
  }

  lemma MergeAllNonEmpty(words: seq<Word>, p: Pair)
    requires NoEmptyTokens(words)
    ensures NoEmptyTokens(MergeAll(words, p))
  {
    forall i | 0 <= i < |words| ensures NonEmptyTokens(MergePass(words[i], p)) {
      MergePassNonEmpty(words[i], p);
    }
  }

  lemma CorpusWordsNext(mode: Mode, norm: Normalization, texts: seq<Str>, i: nat)
    requires i < |texts|
    ensures CorpusWords(mode, norm, texts[..i + 1]) == CorpusWords(mode, norm, texts[..i]) + TextWords(mode, norm, texts[i])
  {
    hide CorpusWords, TextWords;
    assert texts[..i + 1] == texts[..i] + [texts[i]];
    CorpusWordsAppend(mode, norm, texts[..i], [texts[i]]);
    CorpusOne(mode, norm, texts[i]);
  }

  lemma CorpusUnitsNext(mode: Mode, norm: Normalization, texts: seq<Str>, i: nat)
    requires i < |texts|
    ensures CorpusUnits(mode, norm, texts[..i + 1])
         == CorpusUnits(mode, norm, texts[..i]) + SplitUnits(mode, Normalize(norm, texts[i]))
  {
    hide CorpusUnits, SplitUnits, Normalize;
    assert texts[..i + 1] == texts[..i] + [texts[i]];
    CorpusUnitsAppend(mode, norm, texts[..i], [texts[i]]);
    CorpusOne(mode, norm, texts[i]);
  }

  lemma SplitNonEmpty(mode: Mode, s: Str)
    ensures NonEmptyTokens(SplitUnits(mode, s))
  {
    SplitShort(s);
  }

  // ----------------------------------------------------- corpus to words

  method WordsOfText(mode: Mode, norm: Normalization, text: Str) returns (r: Result<seq<Word>>)
    ensures r == if ValidUtf8(text) then Ok(TextWords(mode, norm, text)) else Err(EncodingError)
    ensures r.Ok? ==> NoEmptyTokens(r.value)
  {
    hide TextWords, ValidUtf8, PreTokens;
    var pre := PreTokenize(mode, norm, text);
    if pre.Err? {
      return Err(pre.error);
    }
    var tokens := pre.value;
    PreTokensNonEmpty(mode, norm, text);
    var words: seq<Word> := [];
    var i := 0;
    while i < |tokens|
      invariant 0 <= i <= |tokens| && |words| == i
      invariant forall k | 0 <= k < i :: words[k] == SplitUnits(mode, tokens[k])
    {
      var units := Split(mode, tokens[i]);
      UnitsNonEmpty(mode, tokens[i]);
      if units != [] {
        words := words + [units];
      }
      i := i + 1;
    }
    TextWordsAre(mode, norm, text, words);
    forall k | 0 <= k < |words| ensures NonEmptyTokens(words[k]) {
      SplitNonEmpty(mode, tokens[k]);
    }
    return Ok(words);
  }

  lemma TextWordsAre(mode: Mode, norm: Normalization, text: Str, words: seq<Word>)
    requires var tokens := PreTokens(mode, norm, text);
      |words| == |tokens| && forall k | 0 <= k < |words| :: words[k] == SplitUnits(mode, tokens[k])
    ensures words == TextWords(mode, norm, text)
  {
  }

  lemma PreTokensNonEmpty(mode: Mode, norm: Normalization, text: Str)
    ensures forall i | 0 <= i < |PreTokens(mode, norm, text)| :: PreTokens(mode, norm, text)[i] != []
  {
    var pieces := Pieces(mode, Normalize(norm, text));
    PiecesUnmixed(mode, Normalize(norm, text));
    forall i | 0 <= i < |pieces| ensures Squash(pieces[i]) != [] {
      SquashNonEmpty(pieces[i]);
    }
  }

  lemma UnitsNonEmpty(mode: Mode, s: Str)
    ensures s != [] ==> SplitUnits(mode, s) != []
  {
  }

  method CorpusToWords(mode: Mode, norm: Normalization, texts: seq<Str>) returns (r: Result<seq<Word>>)
    ensures r == if AllValid(texts) then Ok(CorpusWords(mode, norm, texts)) else Err(EncodingError)
    ensures r.Ok? ==> NoEmptyTokens(r.value)
  {
    hide TextWords, ValidUtf8;
    var words: seq<Word> := [];
    var i := 0;
    while i < |texts|
      invariant 0 <= i <= |texts|
      invariant AllValid(texts[..i]) && words == CorpusWords(mode, norm, texts[..i])
      invariant NoEmptyTokens(words)
    {
      var t := WordsOfText(mode, norm, texts[i]);
      if t.Err? {
        return Err(t.error);
      }
      CorpusWordsNext(mode, norm, texts, i);
      words := words + t.value;
      i := i + 1;
    }
    assert texts[..i] == texts;
    return Ok(words);
  }

  // ------------------------------------------------------ counting units

  ghost predicate Tallied(counts: map<Str, int>, m: multiset<Str>) {
    (forall u :: u in counts <==> u in m) && (forall u | u in counts :: counts[u] == m[u])
  }

  method TallyUnits(counts: map<Str, int>, units: seq<Str>, ghost m: multiset<Str>) returns (counts': map<Str, int>)
    requires Tallied(counts, m)
    ensures Tallied(counts', m + multiset(units))
  {
    counts' := counts;
    var i := 0;
    while i < |units|
      invariant 0 <= i <= |units|
      invariant Tallied(counts', m + multiset(units[..i]))
    {
      assert units[..i + 1] == units[..i] + [units[i]];
      counts' := counts'[units[i] := (if units[i] in counts' then counts'[units[i]] else 0) + 1];
      i := i + 1;
    }
    assert units[..i] == units;
  }

  method CountCorpusUnits(mode: Mode, norm: Normalization, texts: seq<Str>) returns (freq: map<Str, int>)
    ensures Tallied(freq, multiset(CorpusUnits(mode, norm, texts)))
  {
    hide CorpusUnits, SplitUnits, Tallied;
    freq := map[];
    TallyNone();
    CorpusUnitsNone(mode, norm);
    assert texts[..0] == [];
    var i := 0;
    while i < |texts|
      invariant 0 <= i <= |texts|
      invariant Tallied(freq, multiset(CorpusUnits(mode, norm, texts[..i])))
    {
      var seen := texts[i];
      if norm.LOWERCASE? {
        seen := ToLower(texts[i]);
      }
      var units := Split(mode, seen);
      CorpusUnitsNext(mode, norm, texts, i);
      freq := TallyUnits(freq, units, multiset(CorpusUnits(mode, norm, texts[..i])));
      i := i + 1;
    }
    assert texts[..i] == texts;
  }

  lemma TallyNone()
    ensures Tallied(map[], multiset{})
  {
  }

  lemma CorpusUnitsNone(mode: Mode, norm: Normalization)
    ensures CorpusUnits(mode, norm, []) == []
  {
  }

  // --------------------------------------------------------------- the class

  class BPETokenizer {
    var mode: Mode
    var normalization: Normalization
    var vocab: map<Str, int>
    var inverseVocab: map<int, Str>
    var bpeMerges: seq<Pair>
    var specialTokens: set<Str>
    var padTokenId: int
    var unkTokenId: int
    var bosTokenId: int
    var eosTokenId: int
    var cacheKey: nat

    function State(): Model
      reads this
    {
      Model(mode, normalization, Tables(vocab, inverseVocab), bpeMerges, specialTokens,
            padTokenId, unkTokenId, bosTokenId, eosTokenId)
    }

    /** What the caches depend on. */
    function Cached(): Tok
      reads this
    {
      Tok(mode, bpeMerges, cacheKey)
    }

    constructor (mode: Mode, keys: CacheKeys)
      modifies keys
      ensures (Cached(), keys.next) == Constructed(mode, old(keys.next))
      ensures State() == FreshModel(mode, CASED) && this.mode == mode
      ensures cacheKey == old(keys.next) && keys.next == old(keys.next) + 1
    {
      this.mode := mode;
      normalization := CASED;
      var key := keys.NewKey();
      cacheKey := key;
      padTokenId, unkTokenId, bosTokenId, eosTokenId := 0, 1, 2, 3;
      vocab := map[PAD := 0, UNK := 1, BOS := 2, EOS := 3];
      inverseVocab := map[0 := PAD, 1 := UNK, 2 := BOS, 3 := EOS];
      bpeMerges := [];
      specialTokens := {PAD, UNK, BOS, EOS};
    }

    /** A copy shares the cache key. */
    constructor Copy(other: BPETokenizer)
      ensures State() == other.State() && Cached() == other.Cached()
    {
      mode, normalization := other.mode, other.normalization;
      vocab, inverseVocab := other.vocab, other.inverseVocab;
      bpeMerges, specialTokens := other.bpeMerges, other.specialTokens;
      padTokenId, unkTokenId := other.padTokenId, other.unkTokenId;
      bosTokenId, eosTokenId := other.bosTokenId, other.eosTokenId;
      cacheKey := other.cacheKey;
    }

    method SetNormalization(norm: Normalization, keys: CacheKeys)
      modifies this, keys
      ensures State() == old(State()).(norm := norm)
      ensures (Cached(), keys.next) == Altered(old(Cached()), old(keys.next), Renormalizing)
    {
      normalization := norm;
      cacheKey := keys.NewKey();
    }

    /** Admit units to the tables until the size is reached, in an order the hash table chooses. */
    method AdmitUnits(freq: map<Str, int>, ghost m: multiset<Str>, vocabSize: int, threshold: int)
      returns (currentId: int, ghost base: seq<Str>)
      requires Tallied(freq, m)
      modifies this`vocab, this`inverseVocab
      ensures currentId == 4 + |base|
      ensures BaseChoice(m, vocabSize, threshold, base)
      ensures Tables(vocab, inverseVocab) == AdmitBase(old(Tables(vocab, inverseVocab)), base, 4)
    {
      currentId := 4;
      base := [];
      var rest := freq.Keys;
      while rest != {}
        invariant rest <= freq.Keys
        invariant currentId == 4 + |base|
        invariant Tables(vocab, inverseVocab) == AdmitBase(old(Tables(vocab, inverseVocab)), base, 4)
        invariant Distinct(base)
        invariant forall i | 0 <= i < |base| :: base[i] in freq && base[i] !in rest && freq[base[i]] >= threshold
        invariant |base| <= Max(0, vocabSize - 4)
        invariant |base| < vocabSize - 4 ==> forall u | u in freq.Keys && u !in rest && freq[u] >= threshold :: u in base
      {
        var u :| u in rest;
        rest := rest - {u};
        if freq[u] >= threshold && currentId < vocabSize {
          AdmitBaseAppend(old(Tables(vocab, inverseVocab)), base, u, 4);
          vocab := vocab[u := currentId];
          inverseVocab := inverseVocab[currentId := u];
          currentId := currentId + 1;
          base := base + [u];
        }
      }
    }

    /** One learned rule: its place in the list, a new cache key, and the next id for the merged string. */
    method RecordMerge(best: Pair, keys: CacheKeys)
      modifies this`vocab, this`inverseVocab, this`bpeMerges, this`cacheKey, keys
      ensures bpeMerges == old(bpeMerges) + [best]
      ensures Tables(vocab, inverseVocab) == old(Tables(vocab, inverseVocab)).Enter(Merged(best), |old(vocab)|)
      ensures cacheKey == old(keys.next) && keys.next == old(keys.next) + 1
    {
      bpeMerges := bpeMerges + [best];
      cacheKey := keys.NewKey();
      var merged := best.0 + best.1;
      var newId := |vocab|;
      vocab := vocab[merged := newId];
      inverseVocab := inverseVocab[newId := merged];
    }

    method BuildBpeMerges(texts: seq<Str>, numMerges: int, keys: CacheKeys) returns (r: Result<nat>)
      modifies this`vocab, this`inverseVocab, this`bpeMerges, this`cacheKey, keys
      ensures r.Err? <==> !AllValid(texts)
      ensures r.Err? ==> r.error == EncodingError && State() == old(State()) && Cached() == old(Cached())
                         && keys.next == old(keys.next)
      ensures r.Ok? ==>
        var learned := Learn(CorpusWords(mode, normalization, texts), Max(0, numMerges)).merges;
        && r.value == |learned|
        && (Cached(), keys.next) == Altered(old(Cached()), old(keys.next), Building(learned))
        && Tables(vocab, inverseVocab) == AdmitMerges(old(Tables(vocab, inverseVocab)), learned)
    {
      hide CorpusWords, ValidUtf8, Learn, AdmitMerges, IsBest, MostFrequent, PairCounts, NoEmptyTokens;
      var corpus := CorpusToWords(mode, normalization, texts);
      if corpus.Err? {
        return Err(corpus.error);
      }
      var words := corpus.value;
      var n := Max(0, numMerges);
      var wordTokens := new Word[|words|](i requires 0 <= i < |words| => words[i]);
      assert wordTokens[..] == words;
      ghost var all := Learn(words, n).merges;
      ghost var done: seq<Pair> := [];
      AdmitNone(Tables(vocab, inverseVocab));
      var i := 0;
      while i < numMerges
        invariant 0 <= i <= n && |done| == i
        invariant NoEmptyTokens(wordTokens[..])
        invariant all == done + Learn(wordTokens[..], n - i).merges
        invariant bpeMerges == old(bpeMerges) + done
        invariant Tables(vocab, inverseVocab) == AdmitMerges(old(Tables(vocab, inverseVocab)), done)
        invariant keys.next == old(keys.next) + i
        invariant cacheKey == if i == 0 then old(cacheKey) else keys.next - 1
        invariant fresh(wordTokens)
      {
        var best := GetMostFrequentPair(wordTokens[..]);
        if best.0 == [] {
          break;
        }
        LearnStep(wordTokens[..], n - i, best);
        MergeAllNonEmpty(wordTokens[..], best);
        AdmitMergesAppend(old(Tables(vocab, inverseVocab)), done, best);
        RecordMerge(best, keys);
        MergeTokens(wordTokens, best.0, best.1);
        done := done + [best];
        i := i + 1;
      }
      LearnDone(wordTokens[..], n - i);
      assert done == all;
      return Ok(i);
    }

    method BuildVocab(texts: seq<Str>, vocabSize: int, threshold: int, keys: CacheKeys)
      returns (r: Result<nat>, ghost base: seq<Str>)
      modifies this`vocab, this`inverseVocab, this`bpeMerges, this`cacheKey, keys
      ensures r.Err? <==> !AllValid(texts)
      ensures BaseChoice(multiset(CorpusUnits(mode, normalization, texts)), vocabSize, threshold, base)
      ensures r.Err? ==> r.error == EncodingError && Cached() == old(Cached()) && keys.next == old(keys.next)
                         && Tables(vocab, inverseVocab) == AdmitBase(old(Tables(vocab, inverseVocab)), base, 4)
      ensures r.Ok? ==>
        var learned := Learn(CorpusWords(mode, normalization, texts), Max(0, vocabSize - 4 - |base|)).merges;
        && (Cached(), keys.next) == Altered(old(Cached()), old(keys.next), Building(learned))
        && Tables(vocab, inverseVocab) == AdmitMerges(AdmitBase(old(Tables(vocab, inverseVocab)), base, 4), learned)
      ensures r.Ok? && old(State()) == FreshModel(mode, normalization) ==> BuiltModel(State(), texts, vocabSize, threshold)
    {
      hide CorpusWords, CorpusUnits, ValidUtf8, Learn, AdmitMerges, AdmitBase, BaseChoice, Tallied;
      var freq := CountCorpusUnits(mode, normalization, texts);
      ghost var m := multiset(CorpusUnits(mode, normalization, texts));
      var currentId;
      currentId, base := AdmitUnits(freq, m, vocabSize, threshold);
      var numMerges := Max(0, vocabSize - currentId);
      r := BuildBpeMerges(texts, numMerges, keys);
      if r.Ok? && old(State()) == FreshModel(mode, normalization) {
        assert old(Tables(vocab, inverseVocab)) == FRESH;
        ghost var learned := Learn(CorpusWords(mode, normalization, texts), Max(0, vocabSize - 4 - |base|)).merges;
        assert bpeMerges == [] + learned == learned;
        assert BuiltWith(Tables(vocab, inverseVocab), bpeMerges, mode, normalization, texts, vocabSize, threshold, base);
      }
    }

    /** Split one word, through the calling thread's cache. */
    method ApplyBpe(word: Str, tls: ThreadCaches) returns (tokens: Word)
      modifies tls
      ensures word == [] ==> tokens == [] && tls.caches == old(tls.caches)
      ensures word != [] ==>
        (tokens, tls.caches) == Lookup(old(tls.caches), cacheKey, word, SplitWord(mode, bpeMerges, word))
      ensures tls.caches == ApplyAll(old(tls.caches), Cached(), [word])
    {
      hide Touch, Replay, SplitUnits;
      ApplyOne(tls.caches, Cached(), word);
      if word == [] {
        return [];
      }
      tls.Find(cacheKey);
      var cache := tls.caches[|tls.caches| - 1].words;
      if word in cache {
        return cache[word];
      }
      tokens := Split(mode, word);
      ReplayNone(tokens);
      assert bpeMerges[..0] == [];
      var k := 0;
      while k < |bpeMerges|
        invariant 0 <= k <= |bpeMerges|
        invariant tokens == Replay(SplitUnits(mode, word), bpeMerges[..k])
        invariant tls.caches == Touch(old(tls.caches), cacheKey)
      {
        ReplayNext(SplitUnits(mode, word), bpeMerges, k);
        tokens := MergeOnce(tokens, bpeMerges[k].0, bpeMerges[k].1);
        k := k + 1;
      }
      assert bpeMerges[..k] == bpeMerges;
      tls.Remember(word, tokens);
    }

    /** What the tokenizer's cache key stands for while its rules do not change. */
    ghost predicate KeyMeans(meanings: Meanings)
      reads this
    {
      Means(Cached(), meanings)
    }

    method Tokenize(text: Str, tls: ThreadCaches, ghost meanings: Meanings) returns (r: Result<seq<Str>>)
      requires KeyMeans(meanings) && Coherent(tls.caches, meanings)
      modifies tls
      ensures Coherent(tls.caches, meanings)
      ensures r == if ValidUtf8(text) then Ok(Tokens(State(), text)) else Err(EncodingError)
      ensures tls.caches == if r.Err? then old(tls.caches)
                            else ApplyAll(old(tls.caches), Cached(), PreTokens(mode, normalization, text))
    {
      hide Coherent, PreTokens, ValidUtf8, Lookup, SplitWord, ApplyAll;
      var pre := PreTokenize(mode, normalization, text);
      if pre.Err? {
        return Err(pre.error);
      }
      var words := pre.value;
      PreTokensNonEmpty(mode, normalization, text);
      var result: seq<Str> := [];
      assert words[0..] == words && words[..0] == [];
      ApplyOne(tls.caches, Cached(), []);
      var i := 0;
      while i < |words|
        invariant 0 <= i <= |words|
        invariant Coherent(tls.caches, meanings)
        invariant tls.caches == ApplyAll(old(tls.caches), Cached(), words[..i])
        invariant result + SplitWords(mode, bpeMerges, words[i..]) == SplitWords(mode, bpeMerges, words)
      {
        LookupCoherent(tls.caches, cacheKey, meanings, words[i]);
        assert words[i..][1..] == words[i + 1..];
        ApplyAllAppend(old(tls.caches), Cached(), words[..i], [words[i]]);
        assert words[..i + 1] == words[..i] + [words[i]];
        var tokens := ApplyBpe(words[i], tls);
        result := result + tokens;
        i := i + 1;
      }
      assert result == SplitWords(mode, bpeMerges, words) && words[..i] == words;
      return Ok(result);
    }

    method Encode(text: Str, addSpecialTokens: bool, tls: ThreadCaches, ghost meanings: Meanings)
      returns (r: Result<seq<int>>)
      requires KeyMeans(meanings) && Coherent(tls.caches, meanings)
      modifies tls
      ensures Coherent(tls.caches, meanings)
      ensures r == Encoding.Encode(State(), text, addSpecialTokens)
      ensures tls.caches == if r.Err? then old(tls.caches)
                            else ApplyAll(old(tls.caches), Cached(), PreTokens(mode, normalization, text))
    {
      hide Coherent, Tokens, ValidUtf8, ApplyAll, PreTokens;
      if text == [] {
        return Err(InputError);
      }
      var valid := IsValidUtf8(text);
      if !valid {
        return Err(EncodingError);
      }
      var ids: seq<int> := [];
      if addSpecialTokens {
        ids := ids + [bosTokenId];
      }
      var t := Tokenize(text, tls, meanings);
      var tokens := t.value;
      ghost var front := ids;
      var i := 0;
      while i < |tokens|
        invariant 0 <= i <= |tokens|
        invariant ids == front + IdsOf(State(), tokens[..i])
      {
        assert IdsOf(State(), tokens[..i + 1]) == IdsOf(State(), tokens[..i]) + [IdOf(State(), tokens[i])];
        if tokens[i] in vocab {
          ids := ids + [vocab[tokens[i]]];
        } else {
          ids := ids + [unkTokenId];
        }
        i := i + 1;
      }
      assert tokens[..i] == tokens;
      if addSpecialTokens {
        ids := ids + [eosTokenId];
      }

      ghost var plain := IdsOf(State(), tokens);
      assert ids == if addSpecialTokens then [bosTokenId] + plain + [eosTokenId] else plain;
      return Ok(ids);
    }

    /** The bytes of a saved vocabulary; the hash table chooses the order of its lines. */
    method SaveVocab() returns (file: Str)
      ensures exists order | IsOrder(vocab, order) :: file == SavedText(State(), order)
    {
      hide Header, Unlines, VocabLine, MergeLine, Text, Printed;
      file := WriteHeader(State());
      ghost var lines := Header(State());
      ghost var order: seq<Str> := [];
      var rest := vocab.Keys;
      while rest != {}
        invariant rest <= vocab.Keys
        invariant Distinct(order) && forall i | 0 <= i < |order| :: order[i] in vocab && order[i] !in rest
        invariant forall t | t in vocab.Keys && t !in rest :: t in order
        invariant lines == Header(State()) + VocabLines(vocab, order) && file == Unlines(lines)
      {
        var token :| token in rest;
        rest := rest - {token};
        var escaped := EscapeToken(token);
        file, lines := WriteLine(file, escaped + [TAB] + Printed(vocab[token]), lines);
        assert VocabLine(vocab, token) == Escape(token) + [TAB] + Printed(vocab[token]) by { VocabLineIs(vocab, token); }
        order := order + [token];
      }
      file, lines := WriteLine(file, BPE_MERGES + [SPACE] + Printed(|bpeMerges|), lines);
      ghost var front := lines;
      var i := 0;
      while i < |bpeMerges|
        invariant 0 <= i <= |bpeMerges|
        invariant lines == front + MergeLines(bpeMerges[..i]) && file == Unlines(lines)
      {
        var first := EscapeToken(bpeMerges[i].0);
        var second := EscapeToken(bpeMerges[i].1);
        MergeLinesNext(bpeMerges, i);
        file, lines := WriteLine(file, first + [TAB] + second, lines);
        i := i + 1;
      }
      assert bpeMerges[..i] == bpeMerges;
      assert lines == SavedLines(State(), order);
      assert IsOrder(vocab, order) && file == SavedText(State(), order);
    }

    /** One line of a vocabulary file. */
    method LoadLine(section: Section, line: Str) returns (r: Result<Section>)
      modifies this`mode, this`normalization, this`vocab, this`inverseVocab, this`bpeMerges, this`specialTokens,
               this`padTokenId, this`unkTokenId, this`bosTokenId, this`eosTokenId
      ensures var o := ReadLine(Reading(old(State()), section), line);
        State() == o.st.m && r == if o.Continue? then Ok(o.st.section) else Err(o.error)
    {
      hide Text, Stoi, Find, Unescape;
      if VERSION_COMMENT <= line {
        if VersionMajor(line[|VERSION_COMMENT|..]) > FORMAT_MAJOR {
          return Err(VocabularyFileError);
        }
        return Ok(section);
      }
      if line == [] || line[0] == HASH {
        return Ok(section);
      }
      if NORMALIZATION <= line {
        var value := if |line| > 14 then line[14..] else [];
        if value == Text("CASED") {
          normalization := CASED;
        } else if value == Text("LOWERCASE") {
          normalization := LOWERCASE;
        } else {
          return Err(VocabularyFileError);
        }
        return Ok(section);
      }
      if TOKENIZER_MODE <= line {
        if |line| < 15 {
          return Err(Results.OutOfRange);
        }
        mode := if line[15..] == Text("UNICODE") then UNICODE else ASCII;
        return Ok(section);
      }
      if VOCAB_SIZE <= line {
        return Ok(section);
      }
      if line == SPECIAL_TOKENS {
        return Ok(InSpecials);
      }
      if line == VOCAB {
        return Ok(InVocab);
      }
      if BPE_MERGES <= line {
        return Ok(InMerges);
      }
      r := LoadField(section, line);
    }

    /** A line that belongs to the current section. */
    method LoadField(section: Section, line: Str) returns (r: Result<Section>)
      modifies this`vocab, this`inverseVocab, this`bpeMerges, this`specialTokens,
               this`padTokenId, this`unkTokenId, this`bosTokenId, this`eosTokenId
      ensures var o := ReadField(Reading(old(State()), section), line);
        State() == o.st.m && r == if o.Continue? then Ok(o.st.section) else Err(o.error)
    {
      hide Text, Stoi, Find, Unescape;
      match section
      case NoSection => return Err(VocabularyFileError);
      case InSpecials =>
        var spacePos := Find(line, SPACE);
        if spacePos == |line| {
          return Err(VocabularyFileError);
        }
        var key := line[..spacePos];
        var value := Stoi(line[spacePos + 1..]);
        if !value.Int? {
          return Err(VocabularyFileError);
        }
        if key == PAD_KEY {
          padTokenId := value.n;
        } else if key == UNK_KEY {
          unkTokenId := value.n;
        } else if key == BOS_KEY {
          bosTokenId := value.n;
        } else if key == EOS_KEY {
          eosTokenId := value.n;
        }
        return Ok(section);
      case InVocab =>
        var tabPos := Find(line, TAB);
        if tabPos == |line| {
          return Err(VocabularyFileError);
        }
        var token := UnescapeToken(line[..tabPos]);
        var id := Stoi(line[tabPos + 1..]);
        if !id.Int? || id.n < 0 {
          return Err(VocabularyFileError);
        }
        vocab := vocab[token := id.n];
        inverseVocab := inverseVocab[id.n := token];
        if id.n == padTokenId || id.n == unkTokenId || id.n == bosTokenId || id.n == eosTokenId {
          specialTokens := specialTokens + {token};
        }
        return Ok(section);
      case InMerges =>
        var tabPos := Find(line, TAB);
        if tabPos == |line| {
          return Err(VocabularyFileError);
        }
        var first := UnescapeToken(line[..tabPos]);
        var second := UnescapeToken(line[tabPos + 1..]);
        if first == [] || second == [] {
          return Err(VocabularyFileError);
        }
        bpeMerges := bpeMerges + [(first, second)];
        return Ok(section);
    }

    /** Loading clears the fields first, under a new cache key, so an error leaves what was read so far. */
    method LoadVocab(file: Str, keys: CacheKeys) returns (r: Result<()>)
      modifies this, keys
      ensures var o := VocabFile.Load(old(State()), file);
        State() == o.st.m && r == if o.Continue? then Ok(()) else Err(o.error)
      ensures (Cached(), keys.next) == Altered(old(Cached()), old(keys.next), Reloading(mode, bpeMerges))
    {
      hide ReadLines, Lines, Finish;
      cacheKey := keys.NewKey();
      normalization := LOWERCASE;
      mode := ASCII;
      vocab, inverseVocab, bpeMerges, specialTokens := map[], map[], [], {};
      assert Reading(State(), NoSection) == StartReading(old(State()));
      var section := LoadLines(file);
      if section.Err? {
        return Err(section.error);
      }
      r := FinishLoading(section.value);
    }

    method LoadLines(file: Str) returns (r: Result<Section>)
      modifies this`mode, this`normalization, this`vocab, this`inverseVocab, this`bpeMerges, this`specialTokens,
               this`padTokenId, this`unkTokenId, this`bosTokenId, this`eosTokenId
      ensures var o := ReadLines(Reading(old(State()), NoSection), Lines(file));
        State() == o.st.m && r == if o.Continue? then Ok(o.st.section) else Err(o.error)
    {
      hide ReadLine, ReadLines, Lines, LineLength;
      var section := NoSection;
      ghost var start := Reading(State(), NoSection);
      assert file[0..] == file;
      var pos := 0;
      while pos < |file|
        invariant 0 <= pos <= |file|
        invariant ReadLines(start, Lines(file)) == ReadLines(Reading(State(), section), Lines(file[pos..]))
      {
        var n := LineLength(file[pos..]);
        LinesNext(file, pos);
        var line := file[pos..pos + n];
        pos := if pos + n < |file| then pos + n + 1 else |file|;
        ReadCons(Reading(State(), section), line, Lines(file[pos..]));
        var step := LoadLine(section, line);
        if step.Err? {
          return Err(step.error);
        }
        section := step.value;
      }
      assert file[pos..] == [];
      NoMoreLines(Reading(State(), section));
      return Ok(section);
    }

    method FinishLoading(ghost section: Section) returns (r: Result<()>)
      modifies this`inverseVocab, this`specialTokens
      ensures var o := Finish(Reading(old(State()), section));
        State() == o.st.m && r == if o.Continue? then Ok(()) else Err(o.error)
    {
      if vocab == map[] {
        return Err(VocabularyFileError);
      }
      if PAD !in vocab || UNK !in vocab || BOS !in vocab || EOS !in vocab {
        return Err(VocabularyFileError);
      }
      specialTokens := specialTokens + {PAD} + {UNK} + {BOS} + {EOS};
      inverseVocab := inverseVocab[padTokenId := PAD][unkTokenId := UNK][bosTokenId := BOS][eosTokenId := EOS];
      return Ok(());
    }

    method Decode(ids: seq<int>, skipSpecialTokens: bool) returns (r: Result<Str>)
      ensures r == Encoding.Decode(State(), ids, skipSpecialTokens)
    {
      if ids == [] {
        return Err(InputError);
      }
      var result: Str := [];
      assert ids[0..] == ids;
      var i := 0;
      while i < |ids|
        invariant 0 <= i <= |ids|
        invariant forall k | 0 <= k < i :: ids[k] >= 0
        invariant result + TextsOf(State(), ids[i..], skipSpecialTokens) == TextsOf(State(), ids, skipSpecialTokens)
      {
        var id := ids[i];
        if id < 0 {
          return Err(TokenIDError);
        }
        DecodeStep(State(), ids, i, skipSpecialTokens, result);
        if id in inverseVocab {
          var token := inverseVocab[id];
          if !(skipSpecialTokens && token in specialTokens) {
            result := result + token;
          }
        }
        i := i + 1;
      }
      assert result == TextsOf(State(), ids, skipSpecialTokens);
      return Ok(result);
    }
  }

  lemma {:induction false} UnlinesAppend(lines: seq<Str>, line: Str)
    ensures Unlines(lines + [line]) == Unlines(lines) + line + [LF]
  {
    if lines == [] {
      assert ([] + [line])[1..] == [];
    } else {
      assert (lines + [line])[1..] == lines[1..] + [line];
      UnlinesAppend(lines[1..], line);
    }
  }

  method WriteLine(file: Str, line: Str, ghost lines: seq<Str>) returns (file': Str, ghost lines': seq<Str>)
    requires file == Unlines(lines)
    ensures lines' == lines + [line] && file' == Unlines(lines')
  {
    UnlinesAppend(lines, line);
    file', lines' := file + line + [LF], lines + [line];
  }

  method WriteHeader(m: Model) returns (file: Str)
    ensures file == Unlines(Header(m))
  {
    hide Unlines, Text, Printed, ModeName, NormalizationName, IdLine;
    ghost var lines: seq<Str> := [];
    UnlinesNone();
    file := [];
    file, lines := WriteLine(file, VERSION_COMMENT + Text("2.0"), lines);
    file, lines := WriteLine(file, TOKENIZER_MODE + [SPACE] + ModeName(m.mode), lines);
    file, lines := WriteLine(file, NORMALIZATION + [SPACE] + NormalizationName(m.norm), lines);
    file, lines := WriteLine(file, VOCAB_SIZE + [SPACE] + Printed(|m.tables.vocab|), lines);
    file, lines := WriteLine(file, SPECIAL_TOKENS, lines);
    file, lines := WriteLine(file, IdLine(PAD_KEY, m.pad), lines);
    file, lines := WriteLine(file, IdLine(UNK_KEY, m.unk), lines);
    file, lines := WriteLine(file, IdLine(BOS_KEY, m.bos), lines);
    file, lines := WriteLine(file, IdLine(EOS_KEY, m.eos), lines);
    file, lines := WriteLine(file, VOCAB, lines);
    assert lines == Header(m);
  }

  lemma VocabLineIs(vocab: map<Str, int>, token: Str)
    requires token in vocab
    ensures VocabLine(vocab, token) == Escape(token) + [TAB] + Printed(vocab[token])
  {
  }

  lemma MergeLinesNext(merges: seq<Pair>, i: nat)
    requires i < |merges|
    ensures MergeLines(merges[..i + 1]) == MergeLines(merges[..i]) + [Escape(merges[i].0) + [TAB] + Escape(merges[i].1)]
  {
  }

  lemma NoMoreLines(st: Reading)
    ensures Lines([]) == [] && ReadLines(st, []) == Continue(st)
  {
  }

  /** The next line and what follows it. */
  lemma LinesNext(file: Str, pos: nat)
    requires pos < |file|
    ensures var n := LineLength(file[pos..]);
      && pos + n <= |file|
      && Lines(file[pos..]) == [file[pos..pos + n]] + Lines(file[if pos + n < |file| then pos + n + 1 else |file|..])
  {
    hide LineLength;
    var rest := file[pos..];
    var n := LineLength(rest);
    assert rest[..n] == file[pos..pos + n];
    assert n < |rest| ==> rest[n + 1..] == file[pos + n + 1..];
  }

  lemma UnlinesNone()
    ensures Unlines([]) == []
  {
  }

  lemma DecodeStep(m: Model, ids: seq<int>, i: nat, skip: bool, before: Str)
    requires i < |ids|
    ensures before + TextsOf(m, ids[i..], skip) == (before + TextOf(m, ids[i], skip)) + TextsOf(m, ids[i + 1..], skip)
    ensures before + [] == before
  {
  }

  // -------------------------------------------------------------- fertility

  /** Words as the fertility probe counts them: a word starts at a byte that is no blank, behind a blank or at the front. */
  function WordStarts(s: Str, end: nat): nat
    requires end <= |s|
  {
    if end == 0 then 0
    else WordStarts(s, end - 1) + if !IsBlank(s[end - 1]) && (end == 1 || IsBlank(s[end - 2])) then 1 else 0
  }

  /** Tokens and words of the first `limit` non-empty texts, each encoded without any cache. */
  function Sampled(m: Model, texts: seq<Str>, limit: int): (nat, nat) {
    if texts == [] || limit <= 0 then (0, 0)
    else if texts[0] == [] then Sampled(m, texts[1..], limit)
    else
      var rest := Sampled(m, texts[1..], limit - 1);
      var encoded := Encoding.Encode(m, texts[0], false);
      ((if encoded.Ok? then |encoded.value| else 0) + rest.0, WordStarts(texts[0], |texts[0]|) + rest.1)
  }

  method CountWords(text: Str) returns (words: nat)
    ensures words == WordStarts(text, |text|)
  {
    words := 0;
    var inWord := false;
    var i := 0;
    while i < |text|
      invariant 0 <= i <= |text|
      invariant words == WordStarts(text, i)
      invariant inWord <==> i > 0 && !IsBlank(text[i - 1])
    {
      var isSpace := IsBlank(text[i]);
      if !isSpace && !inWord {
        words := words + 1;
        inWord := true;
      } else if isSpace {
        inWord := false;
      }
      i := i + 1;
    }
  }

  /** A temporary tokenizer with our tables and rules but a cache key of its own. */
  method MakeProbe(self: BPETokenizer, keys: CacheKeys) returns (probe: BPETokenizer)
    modifies keys
    ensures fresh(probe) && probe.State() == self.State()
    ensures probe.Cached() == self.Cached().(key := old(keys.next)) && keys.next == old(keys.next) + 1
  {
    hide FreshModel;
    probe := new BPETokenizer(self.mode, keys);
    probe.normalization := self.normalization;
    probe.vocab, probe.inverseVocab := self.vocab, self.inverseVocab;
    probe.bpeMerges, probe.specialTokens := self.bpeMerges, self.specialTokens;
    probe.padTokenId, probe.unkTokenId := self.padTokenId, self.unkTokenId;
    probe.bosTokenId, probe.eosTokenId := self.bosTokenId, self.eosTokenId;
  }

  /** The two sums of `measure_fertility`: a probe with our tables and rules but its own cache key. */
  method MeasureFertility(self: BPETokenizer, texts: seq<Str>, sampleLimit: int, keys: CacheKeys, tls: ThreadCaches,
                          ghost meanings: Meanings)
    returns (totalTokens: nat, totalWords: nat, ghost more: Meanings)
    requires Coherent(tls.caches, meanings) && forall k | k in meanings :: k < keys.next
    modifies keys, tls
    ensures (totalTokens, totalWords) == if self.vocab == map[] then (0, 0) else Sampled(self.State(), texts, sampleLimit)
    ensures Coherent(tls.caches, more) && (forall k | k in more :: k < keys.next)
    ensures forall k | k in meanings :: k in more && more[k] == meanings[k]
    ensures self.vocab == map[] ==> tls.caches == old(tls.caches) && keys.next == old(keys.next)
    ensures self.vocab != map[] ==>
      && keys.next == old(keys.next) + 1
      && exists words :: tls.caches == ApplyAll(old(tls.caches), self.Cached().(key := old(keys.next)), words)
  {
    hide Coherent, ApplyAll;
    totalTokens, totalWords := 0, 0;
    more := meanings;
    if self.vocab == map[] {
      return;
    }
    var probe := MakeProbe(self, keys);
    MoreMeanings(tls.caches, meanings, probe.cacheKey, (probe.mode, probe.bpeMerges));
    more := meanings[probe.cacheKey := (probe.mode, probe.bpeMerges)];
    ghost var tok := probe.Cached();
    ghost var before := tls.caches;
    totalTokens, totalWords := SampleTexts(probe, texts, sampleLimit, tls, more);
    assert probe.Cached() == tok;
    ghost var words :| tls.caches == ApplyAll(before, tok, words);
    assert before == old(tls.caches);
    assert tok == self.Cached().(key := old(keys.next));
  }

  method SampleTexts(probe: BPETokenizer, texts: seq<Str>, sampleLimit: int, tls: ThreadCaches, ghost meanings: Meanings)
    returns (totalTokens: nat, totalWords: nat)
    requires probe.KeyMeans(meanings) && Coherent(tls.caches, meanings)
    modifies tls
    ensures (totalTokens, totalWords) == Sampled(probe.State(), texts, sampleLimit)
    ensures Coherent(tls.caches, meanings)
    ensures exists words :: tls.caches == ApplyAll(old(tls.caches), probe.Cached(), words)
  {
    hide Coherent, WordStarts, Encoding.Encode, ApplyAll;
    totalTokens, totalWords := 0, 0;
    ghost var words: seq<Str> := [];
    ApplyOne(tls.caches, probe.Cached(), []);
    ghost var model := probe.State();
    assert texts[0..] == texts;
    var sampled := 0;
    var i := 0;
    while i < |texts| && sampled < sampleLimit
      invariant 0 <= i <= |texts|
      invariant probe.State() == model && probe.KeyMeans(meanings)
      invariant Coherent(tls.caches, meanings)
      invariant tls.caches == ApplyAll(old(tls.caches), probe.Cached(), words)
      invariant var rest := Sampled(model, texts[i..], sampleLimit - sampled);
        (totalTokens + rest.0, totalWords + rest.1) == Sampled(model, texts, sampleLimit)
    {
      assert texts[i..][0] == texts[i] && texts[i..][1..] == texts[i + 1..];
      if texts[i] != [] {
        var textWords := CountWords(texts[i]);
        totalWords := totalWords + textWords;
        var encoded := probe.Encode(texts[i], false, tls, meanings);
        if encoded.Ok? {
          totalTokens := totalTokens + |encoded.value|;
          ghost var pre := PreTokens(probe.mode, probe.normalization, texts[i]);
          ApplyAllAppend(old(tls.caches), probe.Cached(), words, pre);
          words := words + pre;
        }
        sampled := sampled + 1;
      }
      i := i + 1;
    }
  }

  lemma ReplayNone(ts: Word)
    ensures Replay(ts, []) == ts
  {
  }

  lemma AdmitNone(t: Tables)
    ensures AdmitMerges(t, []) == t
  {
  }
}
