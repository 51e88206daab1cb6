/** The two vocabulary tables, how building fills them, and what a built vocabulary guarantees. */
module Vocabulary {
  import opened Bytes
  import opened FiniteSets
  import opened Units
  import opened Merging
  import opened PairCounting
  import opened MergeLearning
  import opened OrderIndependence
  import opened PreTokenizing
  import opened Regex

  const PAD: Str := [LESS_THAN, 0x70, 0x61, 0x64, 0x3E]  // <pad>
  const UNK: Str := [LESS_THAN, 0x75, 0x6E, 0x6B, 0x3E]  // <unk>
  const BOS: Str := [LESS_THAN, 0x62, 0x6F, 0x73, 0x3E]  // <bos>
  const EOS: Str := [LESS_THAN, 0x65, 0x6F, 0x73, 0x3E]  // <eos>

  const SPECIALS: seq<Str> := [PAD, UNK, BOS, EOS]

  datatype Tables = Tables(vocab: map<Str, int>, inverse: map<int, Str>) {
    function Enter(token: Str, id: int): Tables {
      Tables(vocab[token := id], inverse[id := token])
    }
  }

  const FRESH: Tables := Tables(
    map[PAD := 0, UNK := 1, BOS := 2, EOS := 3],
    map[0 := PAD, 1 := UNK, 2 := BOS, 3 := EOS])

  /** The tables hold exactly these tokens, token `i` under id `i`, each the inverse of the other. */
  ghost predicate IsTable(t: Tables, tokens: seq<Str>) {
    && (forall i | 0 <= i < |tokens| :: tokens[i] in t.vocab && t.vocab[tokens[i]] == i)
    && (forall x | x in t.vocab :: 0 <= t.vocab[x] < |tokens| && tokens[t.vocab[x]] == x)
    && (forall id :: id in t.inverse <==> 0 <= id < |tokens|)
    && (forall i | 0 <= i < |tokens| :: t.inverse[i] == tokens[i])
  }

  /** Ids 4, 5, ... for the base units, in the order they are admitted. */
  function AdmitBase(t: Tables, base: seq<Str>, id: int): Tables
    decreases base
  {
    if base == [] then t else AdmitBase(t.Enter(base[0], id), base[1..], id + 1)
  }

  /** Each merged string gets the current vocabulary size as its id. */
  function AdmitMerges(t: Tables, merges: seq<Pair>): Tables
    decreases merges
  {
    if merges == [] then t else AdmitMerges(t.Enter(Merged(merges[0]), |t.vocab|), merges[1..])
  }

  function MergedStrings(merges: seq<Pair>): seq<Str> {
    seq(|merges|, i requires 0 <= i < |merges| => Merged(merges[i]))
  }

  // ------------------------------------------------------------- the corpus

  function CorpusUnits(mode: Mode, norm: Normalization, texts: seq<Str>): seq<Str> {
    if texts == [] then []
    else SplitUnits(mode, Normalize(norm, texts[0])) + CorpusUnits(mode, norm, texts[1..])
  }

  function TextWords(mode: Mode, norm: Normalization, text: Str): seq<Word> {
    var tokens := PreTokens(mode, norm, text);
    seq(|tokens|, i requires 0 <= i < |tokens| => SplitUnits(mode, tokens[i]))
  }

  function CorpusWords(mode: Mode, norm: Normalization, texts: seq<Str>): seq<Word> {
    if texts == [] then [] else TextWords(mode, norm, texts[0]) + CorpusWords(mode, norm, texts[1..])
  }

  predicate AllValid(texts: seq<Str>) {
    forall i | 0 <= i < |texts| :: ValidUtf8(texts[i])
  }

  function Max(a: int, b: int): int {
    if a > b then a else b
  }

  /** A choice of base units: frequent enough, as many as fit under the size asked for, all of them if all fit. */
  ghost predicate BaseChoice(freq: multiset<Str>, vocabSize: int, threshold: int, base: seq<Str>) {
    && (forall i, j | 0 <= i < j < |base| :: base[i] != base[j])
    && (forall i | 0 <= i < |base| :: base[i] in freq && freq[base[i]] >= threshold)
    && |base| <= Max(0, vocabSize - 4)
    && (|base| < vocabSize - 4 ==> forall u | u in freq && freq[u] >= threshold :: u in base)
  }

  /** Tables and rules are those of a vocabulary built on a fresh tokenizer, whatever order the hash table gave. */
  ghost predicate Built(t: Tables, merges: seq<Pair>, mode: Mode, norm: Normalization, texts: seq<Str>,
                        vocabSize: int, threshold: int) {
    exists base :: BuiltWith(t, merges, mode, norm, texts, vocabSize, threshold, base)
  }

  ghost predicate BuiltWith(t: Tables, merges: seq<Pair>, mode: Mode, norm: Normalization, texts: seq<Str>,
                            vocabSize: int, threshold: int, base: seq<Str>) {
    && AllValid(texts)
    && BaseChoice(multiset(CorpusUnits(mode, norm, texts)), vocabSize, threshold, base)
    && merges == Learn(CorpusWords(mode, norm, texts), Max(0, vocabSize - 4 - |base|)).merges
    && t == AdmitMerges(AdmitBase(FRESH, base, 4), merges)
  }

  /** A fresh vocabulary holds the four special tokens under the ids 0 to 3. */
  lemma FreshMeans()
    ensures FRESH.vocab == map[Text("<pad>") := 0, Text("<unk>") := 1, Text("<bos>") := 2, Text("<eos>") := 3]
    ensures FRESH.inverse == map[0 := Text("<pad>"), 1 := Text("<unk>"), 2 := Text("<bos>"), 3 := Text("<eos>")]
  {
    assert PAD == Text("<pad>") && UNK == Text("<unk>") && BOS == Text("<bos>") && EOS == Text("<eos>");
    hide Text;
  }

  // --------------------------------------------------------------- the tables

  lemma {:induction false} TableSize(t: Tables, tokens: seq<Str>)
    requires IsTable(t, tokens)
    ensures |t.vocab| == |tokens|
    decreases |tokens|
  {
    if tokens == [] {
      assert t.vocab.Keys == {};
    } else {
      var n := |tokens| - 1;
      var shorter := Tables(t.vocab - {tokens[n]}, t.inverse - {n});
      assert IsTable(shorter, tokens[..n]);
      TableSize(shorter, tokens[..n]);
      assert t.vocab == shorter.vocab[tokens[n] := n];
    }
  }

  lemma TableEnter(t: Tables, tokens: seq<Str>, token: Str)
    requires IsTable(t, tokens) && token !in tokens
    ensures IsTable(t.Enter(token, |tokens|), tokens + [token])
  {
  }

  predicate Distinct(xs: seq<Str>) {
    forall i, j | 0 <= i < j < |xs| :: xs[i] != xs[j]
  }

  lemma {:induction false} TableAdmitBase(t: Tables, tokens: seq<Str>, base: seq<Str>)
    requires IsTable(t, tokens) && Distinct(base)
    requires forall i | 0 <= i < |base| :: base[i] !in tokens
    ensures IsTable(AdmitBase(t, base, |tokens|), tokens + base)
    decreases base
  {
    hide IsTable;
    if base == [] {
      assert tokens + base == tokens;
    } else {
      TableEnter(t, tokens, base[0]);
      forall i | 0 <= i < |base[1..]| ensures base[1..][i] !in tokens + [base[0]] {
        assert base[1..][i] == base[i + 1] && base[i + 1] != base[0];
      }
      TableAdmitBase(t.Enter(base[0], |tokens|), tokens + [base[0]], base[1..]);
      assert tokens + [base[0]] + base[1..] == tokens + base;
    }
  }

  lemma {:induction false} TableAdmitMerges(t: Tables, tokens: seq<Str>, merges: seq<Pair>)
    requires IsTable(t, tokens) && Distinct(MergedStrings(merges))
    requires forall i | 0 <= i < |merges| :: Merged(merges[i]) !in tokens
    ensures IsTable(AdmitMerges(t, merges), tokens + MergedStrings(merges))
    decreases merges
  {
    hide IsTable;
    if merges == [] {
      assert tokens + MergedStrings(merges) == tokens;
    } else {
      var s, rest := Merged(merges[0]), merges[1..];
      TableSize(t, tokens);
      TableEnter(t, tokens, s);
      MergedStringsRest(merges);
      hide MergedStrings, Distinct;
      forall i | 0 <= i < |rest| ensures Merged(rest[i]) !in tokens + [s] {
        assert rest[i] == merges[i + 1];
      }
      TableAdmitMerges(t.Enter(s, |tokens|), tokens + [s], rest);
      assert tokens + [s] + MergedStrings(rest) == tokens + ([s] + MergedStrings(rest));
    }
  }

  lemma MergedStringsRest(merges: seq<Pair>)
    requires merges != [] && Distinct(MergedStrings(merges))
    ensures MergedStrings(merges) == [Merged(merges[0])] + MergedStrings(merges[1..])
    ensures Distinct(MergedStrings(merges[1..]))
    ensures forall i | 0 <= i < |merges[1..]| :: Merged(merges[1..][i]) != Merged(merges[0])
  {
    var all := MergedStrings(merges);
    assert all == [all[0]] + MergedStrings(merges[1..]);
    forall i | 0 <= i < |merges[1..]| ensures Merged(merges[1..][i]) != Merged(merges[0]) {
      assert all[i + 1] != all[0];
    }
    forall i, j | 0 <= i < j < |merges[1..]| ensures MergedStrings(merges[1..])[i] != MergedStrings(merges[1..])[j] {
      assert all[i + 1] != all[j + 1];
    }
  }

  lemma FreshTable()
    ensures IsTable(FRESH, SPECIALS)
    ensures |PAD| == |UNK| == |BOS| == |EOS| == 5
    ensures Mixed(PAD) && Mixed(UNK) && Mixed(BOS) && Mixed(EOS)
  {
    assert PAD[1] == 0x70 && UNK[1] == 0x75 && BOS[1] == 0x62 && EOS[1] == 0x65;
    assert LESS_THAN == PAD[0] == UNK[0] == BOS[0] == EOS[0];
  }

  ghost predicate Mixed(s: Str) {
    |s| > 1 && s[0] == LESS_THAN && IsLetter(s[1])
  }

  // --------------------------------------------------- what the corpus gives

  predicate AllShort(us: seq<Str>) {
    forall i | 0 <= i < |us| :: 1 <= |us[i]| <= 4
  }

  lemma {:induction false} SplitShort(s: Str)
    ensures AllShort(SplitCodePoints(s)) && AllShort(SplitBytes(s))
    decreases |s|
  {
    if s == [] {
    } else {
      var n := SplitLength(s);
      SplitShort(s[n..]);
      assert SplitCodePoints(s) == [s[..n]] + SplitCodePoints(s[n..]);
      assert 1 <= |s[..n]| <= 4;
    }
  }

  lemma {:induction false} CorpusUnitsShort(mode: Mode, norm: Normalization, texts: seq<Str>)
    ensures AllShort(CorpusUnits(mode, norm, texts))
  {
    if texts == [] {
    } else {
      SplitShort(Normalize(norm, texts[0]));
      CorpusUnitsShort(mode, norm, texts[1..]);
    }
  }

  lemma {:induction false} CorpusUnitsAreUnits(mode: Mode, norm: Normalization, texts: seq<Str>)
    requires AllValid(texts)
    ensures AllUnits(mode, CorpusUnits(mode, norm, texts))
  {
    if texts == [] {
    } else {
      NormalizeValid(norm, texts[0]);
      SplitGivesUnits(mode, Normalize(norm, texts[0]));
      CorpusUnitsAreUnits(mode, norm, texts[1..]);
    }
  }

  lemma NormalizeValid(norm: Normalization, s: Str)
    requires ValidUtf8(s)
    ensures ValidUtf8(Normalize(norm, s))
  {
    LowerValid(s);
  }

  /** A word of the corpus: non-empty, whole units, and never `<` together with letters. */
  ghost predicate GoodWord(mode: Mode, w: Word) {
    w != [] && AllUnits(mode, w) && Unmixed(Concat(w))
  }

  lemma TextWordsGood(mode: Mode, norm: Normalization, text: Str)
    requires ValidUtf8(text)
    ensures forall i | 0 <= i < |TextWords(mode, norm, text)| :: GoodWord(mode, TextWords(mode, norm, text)[i])
  {
    var s := Normalize(norm, text);
    NormalizeValid(norm, text);
    PiecesUnmixed(mode, s);
    PiecesValid(s);
    forall i | 0 <= i < |TextWords(mode, norm, text)| ensures GoodWord(mode, TextWords(mode, norm, text)[i]) {
      var t := Squash(Pieces(mode, s)[i]);
      SquashNonEmpty(Pieces(mode, s)[i]);
      SplitGivesUnits(mode, t);
      SplitKeepsText(mode, t);
    }
  }

  lemma {:induction false} CorpusWordsGood(mode: Mode, norm: Normalization, texts: seq<Str>)
    requires AllValid(texts)
    ensures forall i | 0 <= i < |CorpusWords(mode, norm, texts)| :: GoodWord(mode, CorpusWords(mode, norm, texts)[i])
  {
    if texts == [] {
    } else {
      TextWordsGood(mode, norm, texts[0]);
      CorpusWordsGood(mode, norm, texts[1..]);
    }
  }

  lemma {:induction false} ConcatHolds(us: Word, lo: nat, hi: nat, c: Byte)
    requires lo <= hi <= |us| && c in Concat(us[lo..hi])
    ensures c in Concat(us)
  {
    assert us == us[..lo] + us[lo..hi] + us[hi..];
    ConcatAppend(us[..lo] + us[lo..hi], us[hi..]);
    ConcatAppend(us[..lo], us[lo..hi]);
  }

  /** A stretch of a good word is never a special token. */
  lemma StretchIsNoSpecial(mode: Mode, w: Word, lo: nat, hi: nat)
    requires GoodWord(mode, w) && lo <= hi <= |w|
    ensures Concat(w[lo..hi]) !in SPECIALS
  {
    var s := Concat(w[lo..hi]);
    if s in SPECIALS {
      SpecialsAreLong(s);
      ConcatHolds(w, lo, hi, s[0]);
      ConcatHolds(w, lo, hi, s[1]);
    }
  }

  // -------------------------------------------------- the built vocabulary

  lemma MergedIsNew(mode: Mode, words: seq<Word>, n: nat, base: seq<Str>, k: nat)
    requires forall i | 0 <= i < |words| :: GoodWord(mode, words[i])
    requires AllUnits(mode, base)
    requires k < |Learn(words, n).merges|
    ensures Merged(Learn(words, n).merges[k]) !in SPECIALS + base
  {
    var merges := Learn(words, n).merges;
    LearnedFoundInTurn(words, n);
    assert FoundAt(words, merges[..k], merges[k]);
    var us := FoundSpelledByUnits(mode, words, merges[..k], merges[k]);
    var i, lo, hi :| 0 <= i < |words| && 0 <= lo <= hi <= |words[i]| && us == words[i][lo..hi];
    StretchIsNoSpecial(mode, words[i], lo, hi);
    MergedStringIsNoUnit(mode, words, merges[..k], merges[k]);
  }

  /** The tokens of a built vocabulary, in id order. */
  function BuiltTokens(base: seq<Str>, merges: seq<Pair>): seq<Str> {
    SPECIALS + base + MergedStrings(merges)
  }

  lemma TableAfterLearning(mode: Mode, words: seq<Word>, n: nat, t: Tables, base: seq<Str>)
    requires forall i | 0 <= i < |words| :: GoodWord(mode, words[i])
    requires AllUnits(mode, base) && IsTable(t, SPECIALS + base)
    ensures IsTable(AdmitMerges(t, Learn(words, n).merges), BuiltTokens(base, Learn(words, n).merges))
  {
    var merges := Learn(words, n).merges;
    hide AdmitMerges, IsTable, Learn;
    assert UnitWords(mode, words);
    LearnedMergesDistinct(mode, words, n);
    forall k | 0 <= k < |merges| ensures Merged(merges[k]) !in SPECIALS + base {
      MergedIsNew(mode, words, n, base, k);
    }
    forall i, j | 0 <= i < j < |merges| ensures MergedStrings(merges)[i] != MergedStrings(merges)[j] {
      assert Merged(merges[i]) != Merged(merges[j]);
    }
    TableAdmitMerges(t, SPECIALS + base, merges);
  }

  /**
   * After building on a fresh tokenizer the ids are exactly 0..n-1, the two tables are inverse to each other,
   * and n is at most the size asked for (never below the four special tokens).
   */
  lemma BuiltTable(t: Tables, merges: seq<Pair>, mode: Mode, norm: Normalization, texts: seq<Str>,
                   vocabSize: int, threshold: int, base: seq<Str>)
    requires BuiltWith(t, merges, mode, norm, texts, vocabSize, threshold, base)
    ensures IsTable(t, BuiltTokens(base, merges))
    ensures |t.vocab| == |BuiltTokens(base, merges)| <= Max(4, vocabSize)
  {
    var words := CorpusWords(mode, norm, texts);
    var units := CorpusUnits(mode, norm, texts);
    CorpusWordsGood(mode, norm, texts);
    CorpusUnitsAreUnits(mode, norm, texts);
    CorpusUnitsShort(mode, norm, texts);
    hide CorpusWords, CorpusUnits, Learn, AdmitBase, AdmitMerges, IsTable, MergedStrings;
    BaseAdmitted(mode, units, base);
    var n := Max(0, vocabSize - 4 - |base|);
    TableAfterLearning(mode, words, n, AdmitBase(FRESH, base, 4), base);
    TableSize(t, BuiltTokens(base, merges));
    LearningLength(words, n);
    BuiltTokensSize(base, merges);
  }

  lemma BuiltTokensSize(base: seq<Str>, merges: seq<Pair>)
    ensures |BuiltTokens(base, merges)| == 4 + |base| + |merges|
  {
  }

  lemma BaseAdmitted(mode: Mode, units: seq<Str>, base: seq<Str>)
    requires AllUnits(mode, units) && Distinct(base)
    requires AllShort(units)
    requires forall i | 0 <= i < |base| :: base[i] in multiset(units)
    ensures IsTable(AdmitBase(FRESH, base, 4), SPECIALS + base)
    ensures AllUnits(mode, base)
  {
    hide AdmitBase, IsTable;
    FreshTable();
    forall i | 0 <= i < |base| ensures base[i] !in SPECIALS && IsUnit(mode, base[i]) {
      assert base[i] in units;
      if base[i] in SPECIALS {
        SpecialsAreLong(base[i]);
      }
    }
    hide FRESH, SPECIALS;
    TableAdmitBase(FRESH, SPECIALS, base);
  }

  lemma SpecialsAreLong(s: Str)
    requires s in SPECIALS
    ensures |s| == 5 && Mixed(s)
  {
  }

  lemma {:induction false} LearningLength(words: seq<Word>, n: nat)
    ensures |Learn(words, n).merges| <= n
    decreases n
  {
    hide PairCounts, MergeAll;
    if n == 0 || PairCounts(words) == multiset{} {
    } else {
      LearningLength(MergeAll(words, BestPair(words)), n - 1);
    }
  }

  // ------------------------------------------------------ order of the texts

  lemma {:induction false} CorpusWordsAppend(mode: Mode, norm: Normalization, a: seq<Str>, b: seq<Str>)
    ensures CorpusWords(mode, norm, a + b) == CorpusWords(mode, norm, a) + CorpusWords(mode, norm, b)
  {
    hide TextWords;
    if a == [] {
      assert a + b == b;
    } else {
      assert (a + b)[1..] == a[1..] + b;
      CorpusWordsAppend(mode, norm, a[1..], b);
    }
  }

  lemma {:induction false} CorpusUnitsAppend(mode: Mode, norm: Normalization, a: seq<Str>, b: seq<Str>)
    ensures CorpusUnits(mode, norm, a + b) == CorpusUnits(mode, norm, a) + CorpusUnits(mode, norm, b)
  {
    hide SplitUnits, Normalize;
    if a == [] {
      assert a + b == b;
    } else {
      assert (a + b)[1..] == a[1..] + b;
      CorpusUnitsAppend(mode, norm, a[1..], b);
    }
  }

  /** A permutation of the texts permutes the words and the units. */
  lemma {:induction false} CorpusPermutes(mode: Mode, norm: Normalization, a: seq<Str>, b: seq<Str>)
    requires multiset(a) == multiset(b)
    ensures multiset(CorpusWords(mode, norm, a)) == multiset(CorpusWords(mode, norm, b))
    ensures multiset(CorpusUnits(mode, norm, a)) == multiset(CorpusUnits(mode, norm, b))
    decreases a
  {
    if a == [] {
      assert b == [] by { assert |multiset(b)| == 0; }
    } else {
      var i := SplitOff(a, b);
      CorpusPermutes(mode, norm, a[1..], b[..i] + b[i + 1..]);
      hide CorpusWords, CorpusUnits;
      assert a == [] + [a[0]] + a[1..] && [] + a[1..] == a[1..];
      CorpusPlusOne(mode, norm, [], a[0], a[1..]);
      CorpusPlusOne(mode, norm, b[..i], a[0], b[i + 1..]);
    }
  }

  lemma CorpusPlusOne(mode: Mode, norm: Normalization, before: seq<Str>, text: Str, after: seq<Str>)
    ensures multiset(CorpusWords(mode, norm, before + [text] + after))
         == multiset(CorpusWords(mode, norm, before + after)) + multiset(TextWords(mode, norm, text))
    ensures multiset(CorpusUnits(mode, norm, before + [text] + after))
         == multiset(CorpusUnits(mode, norm, before + after)) + multiset(SplitUnits(mode, Normalize(norm, text)))
  {
    CorpusOne(mode, norm, text);
    hide CorpusWords, CorpusUnits, TextWords, SplitUnits, Normalize;
    CorpusWordsAppend(mode, norm, before, after);
    CorpusWordsAppend(mode, norm, before + [text], after);
    CorpusWordsAppend(mode, norm, before, [text]);
    CorpusUnitsAppend(mode, norm, before, after);
    CorpusUnitsAppend(mode, norm, before + [text], after);
    CorpusUnitsAppend(mode, norm, before, [text]);
  }

  lemma CorpusOne(mode: Mode, norm: Normalization, text: Str)
    ensures CorpusWords(mode, norm, [text]) == TextWords(mode, norm, text)
    ensures CorpusUnits(mode, norm, [text]) == SplitUnits(mode, Normalize(norm, text))
  {
  }

  /** The number of base units does not depend on the order of the hash table, only which ones may. */
  lemma BaseSize(freq: multiset<Str>, vocabSize: int, threshold: int, base: seq<Str>)
    requires BaseChoice(freq, vocabSize, threshold, base)
    ensures var eligible := set u | u in freq && freq[u] >= threshold;
      |base| == if |eligible| <= Max(0, vocabSize - 4) then |eligible| else Max(0, vocabSize - 4)
  {
    var eligible := set u | u in freq && freq[u] >= threshold;
    var chosen := set u | u in base;
    DistinctSize(base);
    assert chosen <= eligible;
    SubsetSize(chosen, eligible);
    if |base| < vocabSize - 4 {
      assert eligible <= chosen;
      assert eligible == chosen;
    }
  }

  lemma {:induction false} DistinctSize(xs: seq<Str>)
    requires Distinct(xs)
    ensures |set x | x in xs| == |xs|
  {
    if xs == [] {
    } else {
      DistinctSize(xs[1..]);
      assert xs[0] !in xs[1..];
      assert (set x | x in xs) == {xs[0]} + (set x | x in xs[1..]);
    }
  }

  /** Building on any permutation of the texts, with any hash order, learns the same list of rules. */
  lemma RulesIgnoreOrder(t: Tables, merges: seq<Pair>, t': Tables, merges': seq<Pair>, mode: Mode,
                         norm: Normalization, texts: seq<Str>, texts': seq<Str>, vocabSize: int, threshold: int)
    requires Built(t, merges, mode, norm, texts, vocabSize, threshold)
    requires Built(t', merges', mode, norm, texts', vocabSize, threshold)
    requires multiset(texts) == multiset(texts')
    ensures merges == merges'
    ensures |t.vocab| == |t'.vocab|
  {
    hide BuiltWith;
    var base :| BuiltWith(t, merges, mode, norm, texts, vocabSize, threshold, base);
    var base' :| BuiltWith(t', merges', mode, norm, texts', vocabSize, threshold, base');
    BuiltTable(t, merges, mode, norm, texts, vocabSize, threshold, base);
    BuiltTable(t', merges', mode, norm, texts', vocabSize, threshold, base');
    BuiltTokensSize(base, merges);
    BuiltTokensSize(base', merges');
    RulesIgnoreOrderWith(t, merges, t', merges', mode, norm, texts, texts', vocabSize, threshold, base, base');
  }

  lemma RulesIgnoreOrderWith(t: Tables, merges: seq<Pair>, t': Tables, merges': seq<Pair>, mode: Mode,
                             norm: Normalization, texts: seq<Str>, texts': seq<Str>, vocabSize: int, threshold: int,
                             base: seq<Str>, base': seq<Str>)
    requires BuiltWith(t, merges, mode, norm, texts, vocabSize, threshold, base)
    requires BuiltWith(t', merges', mode, norm, texts', vocabSize, threshold, base')
    requires multiset(texts) == multiset(texts')
    ensures merges == merges' && |base| == |base'|
  {
    hide CorpusWords, CorpusUnits, Learn, AdmitBase, AdmitMerges, BaseChoice;
    CorpusPermutes(mode, norm, texts, texts');
    BaseSize(multiset(CorpusUnits(mode, norm, texts)), vocabSize, threshold, base);
    BaseSize(multiset(CorpusUnits(mode, norm, texts')), vocabSize, threshold, base');
    LearnPermutes(CorpusWords(mode, norm, texts), CorpusWords(mode, norm, texts'), Max(0, vocabSize - 4 - |base|));
  }
}
