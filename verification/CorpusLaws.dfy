/** What a corpus contributes to a vocabulary, counted in places of its texts. */
module CorpusLaws {
  import opened Bytes
  import opened Sequences
  import opened Occurrences
  import opened Units
  import opened Merging
  import opened MergeLearning
  import opened PreTokenizing
  import opened KeptText
  import opened Vocabulary

  /** The units of each text as pre-tokenization will see it. */
  function TextUnits(mode: Mode, norm: Normalization, texts: seq<Str>): seq<seq<Str>> {
    seq(|texts|, i requires 0 <= i < |texts| => SplitUnits(mode, Normalize(norm, texts[i])))
  }

  /** Where a unit stands in the corpus: the text and the position among its units. */
  function UnitPlaces(mode: Mode, norm: Normalization, texts: seq<Str>, u: Str): set<(int, int)> {
    Places(TextUnits(mode, norm, texts), u)
  }

  lemma {:induction false} CorpusUnitsFlatten(mode: Mode, norm: Normalization, texts: seq<Str>)
    ensures CorpusUnits(mode, norm, texts) == Flatten(TextUnits(mode, norm, texts))
  {
    hide SplitUnits, Normalize;
    if texts == [] {
    } else {
      CorpusUnitsFlatten(mode, norm, texts[1..]);
      assert TextUnits(mode, norm, texts)[1..] == TextUnits(mode, norm, texts[1..]);
    }
  }

  /** A unit is counted once for each place where it stands. */
  lemma UnitsCounted(mode: Mode, norm: Normalization, texts: seq<Str>, u: Str)
    ensures multiset(CorpusUnits(mode, norm, texts))[u] == |UnitPlaces(mode, norm, texts, u)|
  {
    CorpusUnitsFlatten(mode, norm, texts);
    PlacesCount(TextUnits(mode, norm, texts), u);
    hide CorpusUnits, TextUnits, Places;
  }

  /** The units that stand in at least `threshold` places, and in some. */
  function Eligible(mode: Mode, norm: Normalization, texts: seq<Str>, threshold: int): set<Str> {
    set u | u in CorpusUnits(mode, norm, texts) && |UnitPlaces(mode, norm, texts, u)| >= threshold
  }

  lemma BaseEligible(mode: Mode, norm: Normalization, texts: seq<Str>, vocabSize: int, threshold: int, base: seq<Str>)
    requires BaseChoice(multiset(CorpusUnits(mode, norm, texts)), vocabSize, threshold, base)
    ensures var eligible := Eligible(mode, norm, texts, threshold);
      && (forall u | u in base :: u in eligible)
      && |base| == (if |eligible| <= Max(0, vocabSize - 4) then |eligible| else Max(0, vocabSize - 4))
  {
    var units := CorpusUnits(mode, norm, texts);
    var freq := multiset(units);
    BaseSize(freq, vocabSize, threshold, base);
    forall u ensures freq[u] == |UnitPlaces(mode, norm, texts, u)| {
      UnitsCounted(mode, norm, texts, u);
    }
    hide CorpusUnits, UnitPlaces;
    assert Eligible(mode, norm, texts, threshold) == set u | u in freq && freq[u] >= threshold;
  }

  lemma BaseIsUnits(mode: Mode, norm: Normalization, texts: seq<Str>, vocabSize: int, threshold: int, base: seq<Str>)
    requires AllValid(texts) && BaseChoice(multiset(CorpusUnits(mode, norm, texts)), vocabSize, threshold, base)
    ensures forall u | u in base :: IsUnit(mode, u)
  {
    var units := CorpusUnits(mode, norm, texts);
    CorpusUnitsAreUnits(mode, norm, texts);
    hide CorpusUnits, IsUnit;
    forall u | u in base ensures IsUnit(mode, u) {
      assert u in multiset(units);
      assert u in units;
    }
  }

  /** Of the tokens of a built vocabulary only the base units are single units. */
  lemma UnitIsBase(mode: Mode, words: seq<Word>, n: nat, base: seq<Str>, u: Str)
    requires UnitWords(mode, words)
    requires u in BuiltTokens(base, Learn(words, n).merges) && IsUnit(mode, u)
    ensures u in base
  {
    LearnedMergesDistinct(mode, words, n);
    hide Learn, UnitWords;
    if u in SPECIALS {
      SpecialsAreLong(u);
    }
    hide SPECIALS;
  }

  lemma WordsOfUnits(mode: Mode, norm: Normalization, texts: seq<Str>)
    requires AllValid(texts)
    ensures UnitWords(mode, CorpusWords(mode, norm, texts))
  {
    CorpusWordsGood(mode, norm, texts);
    hide CorpusWords;
  }

  /** Where the tables have the base units. */
  lemma BaseIds(t: Tables, base: seq<Str>, merges: seq<Pair>)
    requires IsTable(t, BuiltTokens(base, merges))
    ensures forall u | u in t.vocab :: u in BuiltTokens(base, merges)
    ensures forall u | u in base :: u in t.vocab && 4 <= t.vocab[u] < 4 + |base|
  {
    var tokens := BuiltTokens(base, merges);
    forall u | u in base ensures u in t.vocab && 4 <= t.vocab[u] < 4 + |base| {
      var i :| 0 <= i < |base| && base[i] == u;
      assert tokens[4 + i] == u;
    }
  }

  /** The single units that have an id. */
  function Admitted(t: Tables, mode: Mode): set<Str> {
    set u | u in t.vocab && IsUnit(mode, u)
  }

  lemma SizeOfDistinct(xs: seq<Str>, s: set<Str>)
    requires Distinct(xs) && forall x :: x in s <==> x in xs
    ensures |s| == |xs|
  {
    DistinctSize(xs);
    assert s == set x | x in xs;
  }

  lemma AdmittedAreBase(t: Tables, merges: seq<Pair>, mode: Mode, norm: Normalization, texts: seq<Str>,
                        vocabSize: int, threshold: int, base: seq<Str>)
    requires BuiltWith(t, merges, mode, norm, texts, vocabSize, threshold, base)
    ensures forall u :: u in Admitted(t, mode) <==> u in base
    ensures forall u | u in base :: u in t.vocab && 4 <= t.vocab[u] < 4 + |base|
  {
    var words, n := CorpusWords(mode, norm, texts), Max(0, vocabSize - 4 - |base|);
    BuiltTable(t, merges, mode, norm, texts, vocabSize, threshold, base);
    BaseIds(t, base, merges);
    BaseIsUnits(mode, norm, texts, vocabSize, threshold, base);
    WordsOfUnits(mode, norm, texts);
    assert merges == Learn(words, n).merges;
    hide BuiltWith, Learn, CorpusWords, IsUnit, IsTable, BuiltTokens, UnitWords, BaseChoice;
    forall u | u in t.vocab && IsUnit(mode, u) ensures u in base {
      UnitIsBase(mode, words, n, base, u);
    }
  }

  /**
   * A built vocabulary holds only units that stand in enough places, all of them if they fit under the size asked for,
   * otherwise as many as fit; and they have the ids from 4 on.
   */
  lemma AdmittedUnits(t: Tables, merges: seq<Pair>, mode: Mode, norm: Normalization, texts: seq<Str>,
                      vocabSize: int, threshold: int)
    requires Built(t, merges, mode, norm, texts, vocabSize, threshold)
    ensures var eligible := Eligible(mode, norm, texts, threshold);
      var admitted := Admitted(t, mode);
      && admitted <= eligible
      && |admitted| == (if |eligible| <= Max(0, vocabSize - 4) then |eligible| else Max(0, vocabSize - 4))
      && forall u | u in admitted :: u in t.vocab && 4 <= t.vocab[u] < 4 + |admitted|
  {
    var base :| BuiltWith(t, merges, mode, norm, texts, vocabSize, threshold, base);
    BaseEligible(mode, norm, texts, vocabSize, threshold, base);
    hide BuiltWith, Eligible, Admitted;
    AdmittedAreBase(t, merges, mode, norm, texts, vocabSize, threshold, base);
    SizeOfDistinct(base, Admitted(t, mode));
  }

  lemma AllJoined(words: seq<Word>, n: nat)
    requires NoEmptyWord(words) && |Learn(words, n).merges| < n
    ensures forall i | 0 <= i < |words| :: |Replay(words[i], Learn(words, n).merges)| == 1
  {
    var r := Learn(words, n);
    LearningIsBounded(words, n);
    ReplayAgreesWithTraining(words, n);
    hide *;
    AllReplayed(words, r.merges, r.words);
  }

  lemma AllReplayed(words: seq<Word>, merges: seq<Pair>, last: seq<Word>)
    requires last == ReplayAll(words, merges) && forall i | 0 <= i < |words| :: |last[i]| == 1
    ensures forall i | 0 <= i < |words| :: |Replay(words[i], merges)| == 1
  {
    hide Replay;
    forall i | 0 <= i < |words| ensures |Replay(words[i], merges)| == 1 {
      assert last[i] == Replay(words[i], merges);
    }
  }

  lemma CorpusNoEmptyWord(mode: Mode, norm: Normalization, texts: seq<Str>)
    requires AllValid(texts)
    ensures NoEmptyWord(CorpusWords(mode, norm, texts))
  {
    CorpusWordsGood(mode, norm, texts);
    hide CorpusWords;
  }

  /** Building stops below the size asked for only when every word of the corpus has become one token. */
  lemma BuiltToSize(t: Tables, merges: seq<Pair>, mode: Mode, norm: Normalization, texts: seq<Str>,
                    vocabSize: int, threshold: int)
    requires Built(t, merges, mode, norm, texts, vocabSize, threshold) && |t.vocab| < vocabSize
    ensures forall i | 0 <= i < |CorpusWords(mode, norm, texts)| :: |Replay(CorpusWords(mode, norm, texts)[i], merges)| == 1
  {
    var base :| BuiltWith(t, merges, mode, norm, texts, vocabSize, threshold, base);
    var words, n := CorpusWords(mode, norm, texts), Max(0, vocabSize - 4 - |base|);
    BuiltTable(t, merges, mode, norm, texts, vocabSize, threshold, base);
    BuiltTokensSize(base, merges);
    CorpusNoEmptyWord(mode, norm, texts);
    assert merges == Learn(words, n).merges && |merges| < n;
    hide *;
    AllJoined(words, n);
  }

  // ------------------------------------------------------- the words of a corpus

  lemma {:induction false} UnitsSpell(mode: Mode, tokens: seq<Str>)
    ensures Concat(Flatten(seq(|tokens|, i requires 0 <= i < |tokens| => SplitUnits(mode, tokens[i])))) == Concat(tokens)
  {
    var words := seq(|tokens|, i requires 0 <= i < |tokens| => SplitUnits(mode, tokens[i]));
    hide SplitUnits;
    if tokens == [] {
    } else {
      UnitsSpell(mode, tokens[1..]);
      SplitKeepsText(mode, tokens[0]);
      assert words[1..] == seq(|tokens[1..]|, i requires 0 <= i < |tokens[1..]| => SplitUnits(mode, tokens[1..][i]));
      ConcatAppend(words[0], Flatten(words[1..]));
    }
  }

  lemma TextSpellsKept(mode: Mode, norm: Normalization, text: Str)
    ensures Concat(Flatten(TextWords(mode, norm, text))) == Kept(norm, text)
  {
    PreTokensKeepText(mode, Normalize(norm, text));
    UnitsSpell(mode, PreTokens(mode, norm, text));
    hide SplitUnits, Flatten, Concat;
  }

  function KeptTexts(norm: Normalization, texts: seq<Str>): seq<Str> {
    seq(|texts|, i requires 0 <= i < |texts| => Kept(norm, texts[i]))
  }

  lemma {:induction false} FlattenAppend<T>(a: seq<seq<T>>, b: seq<seq<T>>)
    ensures Flatten(a + b) == Flatten(a) + Flatten(b)
  {
    if a == [] {
      assert a + b == b;
    } else {
      assert (a + b)[1..] == a[1..] + b;
      FlattenAppend(a[1..], b);
    }
  }

  /** The words of a corpus are those of its texts in order, and spell the kept texts one after the other. */
  lemma {:induction false} CorpusSpellsKept(mode: Mode, norm: Normalization, texts: seq<Str>)
    ensures Concat(Flatten(CorpusWords(mode, norm, texts))) == Concat(KeptTexts(norm, texts))
  {
    hide TextWords, Kept;
    if texts == [] {
    } else {
      CorpusSpellsKept(mode, norm, texts[1..]);
      TextSpellsKept(mode, norm, texts[0]);
      var first, rest := TextWords(mode, norm, texts[0]), CorpusWords(mode, norm, texts[1..]);
      FlattenAppend(first, rest);
      ConcatAppend(Flatten(first), Flatten(rest));
      assert KeptTexts(norm, texts)[1..] == KeptTexts(norm, texts[1..]);
    }
  }
}
