/** How a built tokenizer encodes the texts it was trained on. */
module TrainingText {
  import opened Bytes
  import opened Sequences
  import opened Units
  import opened Merging
  import opened MergeLearning
  import opened KeptText
  import opened KeptUnits
  import opened PreTokenizing
  import opened Regex
  import opened Vocabulary
  import opened Encoding

  lemma {:induction false} TextWordsInCorpus(mode: Mode, norm: Normalization, texts: seq<Str>, k: nat, j: nat)
    returns (i: nat)
    requires k < |texts| && j < |PreTokens(mode, norm, texts[k])|
    ensures i < |CorpusWords(mode, norm, texts)|
    ensures CorpusWords(mode, norm, texts)[i] == SplitUnits(mode, PreTokens(mode, norm, texts[k])[j])
    decreases k
  {
    hide PreTokens, SplitUnits;
    if k == 0 {
      i := j;
    } else {
      var below := TextWordsInCorpus(mode, norm, texts[1..], k - 1, j);
      i := |TextWords(mode, norm, texts[0])| + below;
    }
  }

  /**
   * Replay agrees with training: the split of any pre-token of any training text is exactly that word's
   * segmentation at the end of merge learning.
   */
  lemma TrainingSplit(m: Model, texts: seq<Str>, vocabSize: int, threshold: int, base: seq<Str>, k: nat, j: nat)
    requires BuiltWith(m.tables, m.merges, m.mode, m.norm, texts, vocabSize, threshold, base)
    requires k < |texts| && j < |PreTokens(m.mode, m.norm, texts[k])|
    ensures exists i | 0 <= i < |CorpusWords(m.mode, m.norm, texts)| ::
      && CorpusWords(m.mode, m.norm, texts)[i] == SplitUnits(m.mode, PreTokens(m.mode, m.norm, texts[k])[j])
      && SplitWord(m.mode, m.merges, PreTokens(m.mode, m.norm, texts[k])[j])
         == FinalWords(m.mode, m.norm, texts, Max(0, vocabSize - 4 - |base|))[i]
  {
    var words := CorpusWords(m.mode, m.norm, texts);
    var i := TextWordsInCorpus(m.mode, m.norm, texts, k, j);
    ReplayAgreesWithTraining(words, Max(0, vocabSize - 4 - |base|));
    PiecesUnmixed(m.mode, Normalize(m.norm, texts[k]));
    SquashNonEmpty(Pieces(m.mode, Normalize(m.norm, texts[k]))[j]);
    hide CorpusWords, PreTokens, Learn, SplitUnits, Replay;
    var w := PreTokens(m.mode, m.norm, texts[k])[j];
    assert w != [];
    assert SplitWord(m.mode, m.merges, w) == Replay(words[i], m.merges);
  }

  /** The segmentation of every corpus word when learning stops. */
  ghost function FinalWords(mode: Mode, norm: Normalization, texts: seq<Str>, n: nat): (r: seq<Word>)
    ensures |r| == |CorpusWords(mode, norm, texts)|
  {
    var words := CorpusWords(mode, norm, texts);
    ReplayAgreesWithTraining(words, n);
    Learn(words, n).words
  }

  /** The id of `<unk>` appears exactly when some token stayed a single unit that was not admitted. */
  lemma UnknownExactly(m: Model, texts: seq<Str>, vocabSize: int, threshold: int, text: Str)
    requires BuiltModel(m, texts, vocabSize, threshold)
    requires text != [] && ValidUtf8(text)
    ensures Encode(m, text, false).Ok?
    ensures m.unk in Encode(m, text, false).value
       <==> exists t | t in Tokens(m, text) :: IsUnit(m.mode, t) && t !in m.tables.vocab
  {
    hide Built;
    BuiltConsistent(m, texts, vocabSize, threshold);
    var tokens := Tokens(m, text);
    var ids := IdsOf(m, tokens);
    hide Tokens;
    if m.unk in ids {
      var i :| 0 <= i < |tokens| && ids[i] == m.unk;
      assert IdOf(m, tokens[i]) == m.unk;
      MissingIsUnit(m, text, tokens[i]);
    }
    if t :| t in tokens && t !in m.tables.vocab {
      var i :| 0 <= i < |tokens| && tokens[i] == t;
      assert ids[i] == m.unk;
    }
  }

  /** With every unit of the kept text admitted, no token is unknown. */
  lemma CoveredHasNoUnknown(m: Model, texts: seq<Str>, vocabSize: int, threshold: int, text: Str)
    requires BuiltModel(m, texts, vocabSize, threshold)
    requires text != [] && ValidUtf8(text) && Covered(m, text)
    ensures Encode(m, text, false).Ok? && m.unk !in Encode(m, text, false).value
  {
    hide BuiltModel, Covered, Encode, Tokens;
    CoveredTokens(m, texts, vocabSize, threshold, text);
    UnknownExactly(m, texts, vocabSize, threshold, text);
  }

  lemma MissingIsUnit(m: Model, text: Str, t: Str)
    requires Consistent(m) && (forall k | 0 <= k < |m.merges| :: Merged(m.merges[k]) in m.tables.vocab)
    requires ValidUtf8(text) && t in Tokens(m, text) && IdOf(m, t) == m.unk
    ensures t !in m.tables.vocab && IsUnit(m.mode, t)
  {
    TokenIsNoSpecial(m, text, t);
    var w := TokenOrigin(m, text, t);
    hide Tokens;
    OnlyUnkHasItsId(m, t);
    ReplayTokens(SplitUnits(m.mode, w), m.merges, t);
    SplitGivesUnits(m.mode, w);
  }

  lemma OnlyUnkHasItsId(m: Model, t: Str)
    requires Consistent(m)
    ensures t in m.tables.vocab && m.tables.vocab[t] == m.unk ==> t == UNK
  {
  }

  // ---------------------------------- when a text can be spelled, before encoding it

  /** Every counted unit of the corpus has an id: none fell under the threshold or beyond the size. */
  ghost predicate AllAdmitted(m: Model, texts: seq<Str>) {
    forall u | u in CorpusUnits(m.mode, m.norm, texts) :: u in m.tables.vocab
  }

  /** No byte that a token can hold together with others and that is kept as a space. */
  predicate NoJoinedSpace(text: Str) {
    forall i :: 0 <= i < |text| ==> text[i] != SPACE && !IsVertical(text[i])
  }

  /** In such a text a pre-token with a space is that space alone. */
  lemma {:induction false} SpaceStandsAlone(mode: Mode, s: Str)
    requires NoJoinedSpace(s)
    ensures forall i :: 0 <= i < |Pieces(mode, s)| && SPACE in Squash(Pieces(mode, s)[i]) ==>
              Squash(Pieces(mode, s)[i]) == [SPACE]
    decreases |s|
  {
    if s == [] {
    } else {
      var n := TokenLength(mode, s);
      SpaceStandsAlone(mode, s[n..]);
      if IsBlank(s[0]) {
        WhiteToken(mode, s);
        RunLongest(White, s);
        SquashWhite(s[..n]);
      } else {
        WordToken(mode, s);
        SquashWord(s[..n]);
      }
    }
  }

  lemma LowerKeepsSpaces(norm: Normalization, text: Str)
    requires NoJoinedSpace(text)
    ensures NoJoinedSpace(Normalize(norm, text))
  {
  }

  /** A unit is a part of the text it was split from. */
  lemma UnitInText(mode: Mode, w: Str, c: Byte)
    requires [c] in SplitUnits(mode, w)
    ensures c in w
  {
    var us := SplitUnits(mode, w);
    SplitKeepsText(mode, w);
    var i :| 0 <= i < |us| && us[i] == [c];
    assert us[i..i + 1] == [[c]];
    assert Concat([[c]]) == [c] + Concat([[c]][1..]);
    ConcatHolds(us, i, i + 1, c);
  }

  lemma SpaceWordAlone(mode: Mode, norm: Normalization, text: Str, w: Str)
    requires NoJoinedSpace(text) && w in PreTokens(mode, norm, text) && [SPACE] in SplitUnits(mode, w)
    ensures w == [SPACE]
  {
    LowerKeepsSpaces(norm, text);
    SpaceStandsAlone(mode, Normalize(norm, text));
    UnitInText(mode, w, SPACE);
  }

  lemma OneSpaceUnit(mode: Mode)
    ensures SplitUnits(mode, [SPACE]) == [[SPACE]]
  {
    AsciiValid([SPACE]);
    SplitGivesUnits(mode, [SPACE]);
    SplitKeepsText(mode, [SPACE]);
    assert Concat([[SPACE]]) == [SPACE] + Concat([]);
    UnitsUnique(mode, SplitUnits(mode, [SPACE]), [[SPACE]]);
  }

  /** Each word of the corpus is split from a pre-token of one of the texts. */
  lemma {:induction false} WordOrigin(mode: Mode, norm: Normalization, texts: seq<Str>, i: nat) returns (k: nat, w: Str)
    requires i < |CorpusWords(mode, norm, texts)|
    ensures k < |texts| && w in PreTokens(mode, norm, texts[k])
    ensures CorpusWords(mode, norm, texts)[i] == SplitUnits(mode, w)
  {
    hide PreTokens, SplitUnits;
    var first := |TextWords(mode, norm, texts[0])|;
    if i < first {
      k, w := 0, PreTokens(mode, norm, texts[0])[i];
    } else {
      var below;
      below, w := WordOrigin(mode, norm, texts[1..], i - first);
      k := below + 1;
    }
  }

  lemma {:induction false} TextUnitsCounted(mode: Mode, norm: Normalization, texts: seq<Str>, k: nat)
    requires k < |texts|
    ensures forall u | u in SplitUnits(mode, Normalize(norm, texts[k])) :: u in CorpusUnits(mode, norm, texts)
    decreases k
  {
    hide SplitUnits, Normalize;
    if k == 0 {
    } else {
      TextUnitsCounted(mode, norm, texts[1..], k - 1);
    }
  }

  /** The units of the corpus words were counted, except a space that other white space became. */
  lemma WordUnitsCounted(m: Model, texts: seq<Str>, i: nat, u: Str)
    requires AllValid(texts) && i < |CorpusWords(m.mode, m.norm, texts)|
    requires u in CorpusWords(m.mode, m.norm, texts)[i]
    ensures u in CorpusUnits(m.mode, m.norm, texts) || u == [SPACE]
  {
    var k, w := WordOrigin(m.mode, m.norm, texts, i);
    PreTokenUnits(m, texts[k], w, u);
    UnitsOfKept(m.mode, m.norm, texts[k]);
    TextUnitsCounted(m.mode, m.norm, texts, k);
    hide CorpusWords, CorpusUnits, SplitUnits, PreTokens, Kept, Normalize, HasWhite;
  }

  /** Each unit of a word lies in one token of its replay, and that token comes from a stretch of the word. */
  lemma {:induction false} TokenAround(us: Word, merges: seq<Pair>, j: nat) returns (t: Str, lo: nat, hi: nat)
    requires j < |us|
    ensures t in Replay(us, merges) && lo <= j < hi <= |us| && Concat(us[lo..hi]) == t
    decreases |us|
  {
    var r := Replay(us, merges);
    ReplayNonEmptyList(us, merges);
    assert r == [r[0]] + r[1..];
    var n := ReplaySplits(us, merges, [r[0]], r[1..]);
    if j < n {
      t, lo, hi := r[0], 0, n;
      ReplayKeepsText(us[..n], merges);
      assert us[0..n] == us[..n] && Concat([t]) == t + Concat([t][1..]) == t;
    } else {
      if n == 0 {
        ReplayEmpty(merges);
      }
      var lo', hi';
      t, lo', hi' := TokenAround(us[n..], merges, j - n);
      lo, hi := lo' + n, hi' + n;
      SliceShifted(us, n, lo', hi');
    }
  }

  lemma {:induction false} ReplayNonEmptyList(us: Word, merges: seq<Pair>)
    requires us != []
    ensures Replay(us, merges) != []
    decreases merges
  {
    if merges == [] {
    } else {
      assert MergePass(us, merges[0]) != [];
      ReplayNonEmptyList(MergePass(us, merges[0]), merges[1..]);
    }
  }

  lemma {:induction false} ReplayEmpty(merges: seq<Pair>)
    ensures Replay([], merges) == []
    decreases merges
  {
    if merges == [] {
    } else {
      ReplayEmpty(merges[1..]);
    }
  }

  lemma {:induction false} SplitWordsHold(mode: Mode, merges: seq<Pair>, words: seq<Str>, w: Str, t: Str)
    requires w in words && t in SplitWord(mode, merges, w)
    ensures t in SplitWords(mode, merges, words)
  {
    hide SplitWord;
    if w == words[0] {
    } else {
      SplitWordsHold(mode, merges, words[1..], w, t);
    }
  }

  /** When a unit that was never counted cannot have been merged into a token of this text. */
  predicate SpaceSettled(mode: Mode, norm: Normalization, texts: seq<Str>, text: Str) {
    || [SPACE] in CorpusUnits(mode, norm, texts)
    || NoJoinedSpace(text)
    || forall k :: 0 <= k < |texts| ==> NoJoinedSpace(texts[k])
  }

  ghost predicate Stretch(us: Word, word: Word) {
    exists lo, hi :: 0 <= lo <= hi <= |word| && us == word[lo..hi]
  }

  /** Two or more units that stand together both in this text and in a corpus word were all counted. */
  lemma MergedUnitsCounted(m: Model, texts: seq<Str>, text: Str, w: Str, us: Word, i: nat, u: Str)
    requires AllValid(texts) && SpaceSettled(m.mode, m.norm, texts, text)
    requires w in PreTokens(m.mode, m.norm, text) && u in SplitUnits(m.mode, w)
    requires i < |CorpusWords(m.mode, m.norm, texts)|
    requires |us| >= 2 && u in us
    requires Stretch(us, SplitUnits(m.mode, w)) && Stretch(us, CorpusWords(m.mode, m.norm, texts)[i])
    ensures u in CorpusUnits(m.mode, m.norm, texts)
  {
    var k, v := WordOrigin(m.mode, m.norm, texts, i);
    WordUnitsCounted(m, texts, i, u);
    OneSpaceUnit(m.mode);
    hide CorpusWords, CorpusUnits, SplitUnits, PreTokens, NoJoinedSpace;
    if u !in CorpusUnits(m.mode, m.norm, texts) {
      if NoJoinedSpace(text) {
        SpaceWordAlone(m.mode, m.norm, text, w);
      } else {
        SpaceWordAlone(m.mode, m.norm, texts[k], v);
      }
    }
  }

  lemma InBuiltTokens(base: seq<Str>, merges: seq<Pair>, t: Str)
    requires t in BuiltTokens(base, merges) && t !in SPECIALS
    ensures t in base || exists k | 0 <= k < |merges| :: Merged(merges[k]) == t
  {
    hide SPECIALS, Merged;
    if t !in base {
      var k :| 0 <= k < |merges| && MergedStrings(merges)[k] == t;
    }
  }

  lemma TokenInTable(t: Tables, tokens: seq<Str>, x: Str)
    requires IsTable(t, tokens) && x in t.vocab
    ensures x in tokens
  {
    assert tokens[t.vocab[x]] == x;
  }

  /** Where a token comes from, if it has an id. */
  lemma KnownToken(m: Model, texts: seq<Str>, vocabSize: int, threshold: int, base: seq<Str>, t: Str)
    requires BuiltWith(m.tables, m.merges, m.mode, m.norm, texts, vocabSize, threshold, base)
    requires t in m.tables.vocab && t !in SPECIALS
    ensures t in CorpusUnits(m.mode, m.norm, texts) || exists k | 0 <= k < |m.merges| :: Merged(m.merges[k]) == t
  {
    hide CorpusUnits, CorpusWords, Learn, AdmitBase, AdmitMerges, BuiltTokens, SPECIALS, IsTable, Merged;
    BuiltTable(m.tables, m.merges, m.mode, m.norm, texts, vocabSize, threshold, base);
    TokenInTable(m.tables, BuiltTokens(base, m.merges), t);
    InBuiltTokens(base, m.merges, t);
    if t in base {
      assert t in multiset(CorpusUnits(m.mode, m.norm, texts));
    }
  }

  /** A learned string is spelled by a stretch of two or more units of a corpus word. */
  lemma MergedSpelling(m: Model, texts: seq<Str>, vocabSize: int, threshold: int, base: seq<Str>, k: nat)
    returns (us: Word, i: nat)
    requires BuiltWith(m.tables, m.merges, m.mode, m.norm, texts, vocabSize, threshold, base)
    requires k < |m.merges|
    ensures i < |CorpusWords(m.mode, m.norm, texts)| && |us| >= 2
    ensures AllUnits(m.mode, us) && Concat(us) == Merged(m.merges[k])
    ensures Stretch(us, CorpusWords(m.mode, m.norm, texts)[i])
  {
    var words := CorpusWords(m.mode, m.norm, texts);
    CorpusWordsGood(m.mode, m.norm, texts);
    assert UnitWords(m.mode, words);
    LearnedFoundInTurn(words, Max(0, vocabSize - 4 - |base|));
    assert FoundAt(words, m.merges[..k], m.merges[k]);
    hide CorpusWords, UnitWords, FoundAt, Learn;
    us := FoundSpelledByUnits(m.mode, words, m.merges[..k], m.merges[k]);
    var j, lo, hi :| 0 <= j < |words| && 0 <= lo <= hi <= |words[j]| && us == words[j][lo..hi];
    i := j;
  }

  /** A list of units that spells a unit is that unit. */
  lemma SpellsUnit(mode: Mode, us: Word, t: Str, u: Str)
    requires AllUnits(mode, us) && Concat(us) == t && IsUnit(mode, t) && u in us
    ensures u == t
  {
    assert Concat([t]) == t + Concat([t][1..]) == t;
    UnitsUnique(mode, us, [t]);
  }

  /** If what a stretch of a word of this text spells was learned, its units were counted. */
  lemma LearnedCounted(m: Model, texts: seq<Str>, vocabSize: int, threshold: int, base: seq<Str>, text: Str,
                       w: Str, us: Word, k: nat, u: Str)
    requires BuiltWith(m.tables, m.merges, m.mode, m.norm, texts, vocabSize, threshold, base)
    requires SpaceSettled(m.mode, m.norm, texts, text) && w in PreTokens(m.mode, m.norm, text)
    requires Stretch(us, SplitUnits(m.mode, w)) && AllUnits(m.mode, us) && u in us
    requires k < |m.merges| && Merged(m.merges[k]) == Concat(us)
    ensures u in CorpusUnits(m.mode, m.norm, texts)
  {
    hide CorpusWords, CorpusUnits, SplitUnits, PreTokens, SpaceSettled, AllUnits, Learn, AdmitMerges, BaseChoice, AdmitBase;
    var spelled, i := MergedSpelling(m, texts, vocabSize, threshold, base, k);
    UnitsUnique(m.mode, us, spelled);
    MergedUnitsCounted(m, texts, text, w, us, i, u);
  }

  /** A token that holds a unit which was never counted has no id. */
  lemma UncountedHasNoId(m: Model, texts: seq<Str>, vocabSize: int, threshold: int, base: seq<Str>, text: Str,
                         w: Str, us: Word, u: Str)
    requires BuiltWith(m.tables, m.merges, m.mode, m.norm, texts, vocabSize, threshold, base)
    requires SpaceSettled(m.mode, m.norm, texts, text) && w in PreTokens(m.mode, m.norm, text)
    requires Stretch(us, SplitUnits(m.mode, w)) && AllUnits(m.mode, us) && u in us
    requires Concat(us) !in SPECIALS && u !in CorpusUnits(m.mode, m.norm, texts)
    ensures Concat(us) !in m.tables.vocab
  {
    var t := Concat(us);
    if t in m.tables.vocab {
      BuiltValid(m, texts, vocabSize, threshold, base);
      CountedAreUnits(m, texts);
      hide *;
      KnownToken(m, texts, vocabSize, threshold, base, t);
      if t in CorpusUnits(m.mode, m.norm, texts) {
        SpellsUnit(m.mode, us, t, u);
      } else {
        var k :| 0 <= k < |m.merges| && Merged(m.merges[k]) == t;
        LearnedCounted(m, texts, vocabSize, threshold, base, text, w, us, k, u);
      }
    }
  }

  lemma BuiltValid(m: Model, texts: seq<Str>, vocabSize: int, threshold: int, base: seq<Str>)
    requires BuiltWith(m.tables, m.merges, m.mode, m.norm, texts, vocabSize, threshold, base)
    ensures AllValid(texts)
  {
  }

  lemma CountedAreUnits(m: Model, texts: seq<Str>)
    requires AllValid(texts)
    ensures forall u | u in CorpusUnits(m.mode, m.norm, texts) :: IsUnit(m.mode, u)
  {
    CorpusUnitsAreUnits(m.mode, m.norm, texts);
  }

  /** The token around the `j`th unit of a pre-token. */
  lemma TokenOfUnit(m: Model, text: Str, w: Str, j: nat) returns (us: Word)
    requires w in PreTokens(m.mode, m.norm, text) && j < |SplitUnits(m.mode, w)|
    requires AllUnits(m.mode, SplitUnits(m.mode, w))
    ensures Concat(us) in Tokens(m, text) && SplitUnits(m.mode, w)[j] in us
    ensures AllUnits(m.mode, us) && Stretch(us, SplitUnits(m.mode, w))
  {
    var all := SplitUnits(m.mode, w);
    WordSplits(m, w);
    hide *;
    var t, lo, hi := TokenAround(all, m.merges, j);
    us := all[lo..hi];
    StretchOf(m.mode, all, lo, hi);
    assert us[j - lo] == all[j];
    TokensHold(m, text, w, t);
  }

  lemma TokensHold(m: Model, text: Str, w: Str, t: Str)
    requires w in PreTokens(m.mode, m.norm, text) && t in SplitWord(m.mode, m.merges, w)
    ensures t in Tokens(m, text)
  {
    SplitWordsHold(m.mode, m.merges, PreTokens(m.mode, m.norm, text), w, t);
  }

  /** A unit of the kept text that was never counted ends up in a token without an id. */
  lemma UncountedToken(m: Model, texts: seq<Str>, vocabSize: int, threshold: int, base: seq<Str>, text: Str, u: Str)
    returns (t: Str)
    requires BuiltWith(m.tables, m.merges, m.mode, m.norm, texts, vocabSize, threshold, base)
    requires ValidUtf8(text) && SpaceSettled(m.mode, m.norm, texts, text)
    requires u in SplitUnits(m.mode, Kept(m.norm, text)) && u !in CorpusUnits(m.mode, m.norm, texts)
    ensures t in Tokens(m, text) && t !in m.tables.vocab
  {
    var w := KeptUnitOrigin(m, text, u);
    var j :| 0 <= j < |SplitUnits(m.mode, w)| && SplitUnits(m.mode, w)[j] == u;
    PreTokenGivesUnits(m, text, w);
    hide *;
    var us := TokenOfUnit(m, text, w, j);
    t := Concat(us);
    TokenIsNoSpecial(m, text, t);
    NotAmongSpecials(t);
    UncountedHasNoId(m, texts, vocabSize, threshold, base, text, w, us, u);
  }

  lemma NotAmongSpecials(t: Str)
    requires t !in {PAD, UNK, BOS, EOS}
    ensures t !in SPECIALS
  {
    hide PAD, UNK, BOS, EOS;
  }

  lemma PreTokenGivesUnits(m: Model, text: Str, w: Str)
    requires ValidUtf8(text) && w in PreTokens(m.mode, m.norm, text)
    ensures AllUnits(m.mode, SplitUnits(m.mode, w))
  {
    PreTokensSplittable(m, text);
    SplitGivesUnits(m.mode, w);
  }

  lemma StretchOf(mode: Mode, us: Word, lo: nat, hi: nat)
    requires AllUnits(mode, us) && lo <= hi <= |us|
    ensures AllUnits(mode, us[lo..hi]) && Stretch(us[lo..hi], us)
  {
  }

  lemma WordSplits(m: Model, w: Str)
    requires SplitUnits(m.mode, w) != []
    ensures SplitWord(m.mode, m.merges, w) == Replay(SplitUnits(m.mode, w), m.merges)
  {
  }

  /**
   * When every counted unit has an id, a text encodes with the unknown id exactly when its kept form holds a unit that
   * the corpus did not. (A corpus without a space but with vertical tab or form feed may merge the spaces these become.)
   */
  lemma UnknownForAnyText(m: Model, texts: seq<Str>, vocabSize: int, threshold: int, text: Str)
    requires BuiltModel(m, texts, vocabSize, threshold) && AllAdmitted(m, texts)
    requires text != [] && ValidUtf8(text) && SpaceSettled(m.mode, m.norm, texts, text)
    ensures Encode(m, text, false).Ok?
    ensures m.unk in Encode(m, text, false).value <==>
            exists u | u in SplitUnits(m.mode, Kept(m.norm, text)) :: u !in CorpusUnits(m.mode, m.norm, texts)
  {
    hide BuiltWith, Encode, Tokens, Kept, SplitUnits, CorpusUnits, SpaceSettled;
    if u :| u in SplitUnits(m.mode, Kept(m.norm, text)) && u !in CorpusUnits(m.mode, m.norm, texts) {
      var base :| BuiltWith(m.tables, m.merges, m.mode, m.norm, texts, vocabSize, threshold, base);
      var t := UncountedToken(m, texts, vocabSize, threshold, base, text, u);
      MissingIsUnknown(m, texts, vocabSize, threshold, text, t);
    } else {
      assert Covered(m, text);
      CoveredHasNoUnknown(m, texts, vocabSize, threshold, text);
    }
  }

  lemma MissingIsUnknown(m: Model, texts: seq<Str>, vocabSize: int, threshold: int, text: Str, t: Str)
    requires BuiltModel(m, texts, vocabSize, threshold)
    requires text != [] && ValidUtf8(text) && t in Tokens(m, text) && t !in m.tables.vocab
    ensures Encode(m, text, false).Ok? && m.unk in Encode(m, text, false).value
  {
    hide BuiltWith, Tokens;
    var tokens := Tokens(m, text);
    var i :| 0 <= i < |tokens| && tokens[i] == t;
    assert IdsOf(m, tokens)[i] == m.unk;
  }

  lemma SpaceCounted(mode: Mode, norm: Normalization, texts: seq<Str>, k: nat)
    requires k < |texts| && ValidUtf8(texts[k]) && SPACE in texts[k]
    ensures [SPACE] in CorpusUnits(mode, norm, texts)
  {
    var s := Normalize(norm, texts[k]);
    var i :| 0 <= i < |texts[k]| && texts[k][i] == SPACE;
    assert s[i] == SPACE;
    NormalizeValid(norm, texts[k]);
    TextUnitsCounted(mode, norm, texts, k);
    SplitGivesUnits(mode, s);
    SplitKeepsText(mode, s);
    SplitTailed(mode, s);
    hide SplitUnits, CorpusUnits, Normalize;
    AsciiUnit(mode, SplitUnits(mode, s), SPACE);
  }

  /**
   * When every counted unit has an id, a training text encodes with the unknown id exactly when it holds white space
   * and no text of the corpus holds a space. (Vertical tab and form feed apart, unless a space was counted.)
   */
  lemma TrainingTextUnknown(m: Model, texts: seq<Str>, vocabSize: int, threshold: int, k: nat)
    requires BuiltModel(m, texts, vocabSize, threshold) && AllAdmitted(m, texts)
    requires k < |texts| && texts[k] != [] && ValidUtf8(texts[k])
    requires NoVerticalWhite(texts[k]) || [SPACE] in CorpusUnits(m.mode, m.norm, texts)
    ensures Encode(m, texts[k], false).Ok?
    ensures m.unk in Encode(m, texts[k], false).value <==>
            [SPACE] !in CorpusUnits(m.mode, m.norm, texts) && HasWhite(texts[k])
  {
    var text := texts[k];
    if [SPACE] !in CorpusUnits(m.mode, m.norm, texts) {
      if SPACE in text {
        SpaceCounted(m.mode, m.norm, texts, k);
      }
      assert NoJoinedSpace(text);
    }
    assert SpaceSettled(m.mode, m.norm, texts, text);
    TextUnitsCounted(m.mode, m.norm, texts, k);
    UnitsOfKept(m.mode, m.norm, text);
    hide *;
    UnknownForAnyText(m, texts, vocabSize, threshold, text);
  }

  // ------------------------- a corpus its own vocabulary cannot spell

  /** "a", tab, "b": the space the tab becomes is a unit of the words but not of the counted text. */
  const TABBED: Str := [0x61, TAB, 0x62]

  lemma TabbedPreTokens(mode: Mode)
    ensures PreTokens(mode, CASED, TABBED) == [[0x61], [SPACE], [0x62]]
  {
    hide Pieces, Squash;
    TabbedPieces(mode);
    SquashWord([0x61]);
    SquashWord([0x62]);
    SquashWhite([TAB]);
    assert Normalize(CASED, TABBED) == TABBED;
    hide Normalize, NoWhite, IsWhite;
    assert PreTokens(mode, CASED, TABBED) == SquashAll([[0x61], [TAB], [0x62]]);
  }

  lemma TabbedPieces(mode: Mode)
    ensures Pieces(mode, TABBED) == [[0x61], [TAB], [0x62]]
  {
    var s: Str, end: Str := [TAB, 0x62], [0x62];
    TabbedLengths(mode);
    hide TokenLength;
    assert TABBED[1..] == s && s[1..] == end && end[1..] == [];
    assert end[..1] == end && s[..1] == [TAB] && TABBED[..1] == [0x61];
    assert Pieces(mode, end) == [end];
    assert Pieces(mode, s) == [[TAB]] + [end];
  }

  lemma TabbedLengths(mode: Mode)
    ensures TokenLength(mode, TABBED) == TokenLength(mode, [TAB, 0x62]) == TokenLength(mode, [0x62]) == 1
  {
    RunIs(LetterClass(mode), TABBED, 1);
    RunIs(White, [TAB, 0x62], 1);
    RunIs(LetterClass(mode), [0x62], 1);
    hide RunLength;
  }

  lemma TabbedUnits(mode: Mode)
    ensures SplitUnits(mode, TABBED) == [[0x61], [TAB], [0x62]]
    ensures ValidUtf8(TABBED)
    ensures SplitUnits(mode, [SPACE]) == [[SPACE]]
  {
    AsciiValid(TABBED);
    var want: seq<Str> := [[0x61], [TAB], [0x62]];
    assert want[1..] == [[TAB], [0x62]] && want[1..][1..] == [[0x62]];
    ConcatThree([0x61], [TAB], [0x62]);
    SplitGivesUnits(mode, TABBED);
    SplitKeepsText(mode, TABBED);
    UnitsUnique(mode, SplitUnits(mode, TABBED), want);
    OneSpaceUnit(mode);
  }

  /** However large its vocabulary, a tokenizer built on "a\tb" alone encodes "a\tb" with `<unk>`. */
  lemma TabbedCorpusHasUnknown(m: Model, vocabSize: int, threshold: int)
    requires BuiltModel(m, [TABBED], vocabSize, threshold) && m.norm.CASED?
    ensures Encode(m, TABBED, false).Ok? && m.unk in Encode(m, TABBED, false).value
  {
    hide BuiltWith;
    TabbedUnits(m.mode);
    var base :| BuiltWith(m.tables, m.merges, m.mode, m.norm, [TABBED], vocabSize, threshold, base);
    SpaceNotAdmitted(m, vocabSize, threshold, base);
    SpaceIsToken(m);
    UnknownExactly(m, [TABBED], vocabSize, threshold, TABBED);
    assert IsUnit(m.mode, [SPACE]);
  }

  lemma SpaceIsToken(m: Model)
    requires m.norm.CASED?
    ensures [SPACE] in Tokens(m, TABBED)
  {
    TabbedPreTokens(m.mode);
    TabbedUnits(m.mode);
    ReplaySingle([[SPACE]], m.merges);
    assert SplitWord(m.mode, m.merges, [SPACE]) == [[SPACE]];
    hide SplitWord;
    var ws: seq<Str> := [[0x61], [SPACE], [0x62]];
    assert ws[1..] == [[SPACE], [0x62]] && [[SPACE], [0x62]][0] == [SPACE];
    assert SplitWords(m.mode, m.merges, ws) == SplitWord(m.mode, m.merges, [0x61]) + SplitWords(m.mode, m.merges, ws[1..]);
  }

  lemma SpaceNotAdmitted(m: Model, vocabSize: int, threshold: int, base: seq<Str>)
    requires BuiltWith(m.tables, m.merges, m.mode, m.norm, [TABBED], vocabSize, threshold, base) && m.norm.CASED?
    ensures [SPACE] !in m.tables.vocab
  {
    BuiltTable(m.tables, m.merges, m.mode, m.norm, [TABBED], vocabSize, threshold, base);
    SpaceNotLearned(m, vocabSize, threshold, base);
    hide BuiltWith, BuiltTokens;
    NotInTable(m.tables, BuiltTokens(base, m.merges), [SPACE]);
  }

  lemma NotInTable(t: Tables, tokens: seq<Str>, x: Str)
    requires IsTable(t, tokens) && x !in tokens
    ensures x !in t.vocab
  {
  }

  lemma SpaceNotLearned(m: Model, vocabSize: int, threshold: int, base: seq<Str>)
    requires BuiltWith(m.tables, m.merges, m.mode, m.norm, [TABBED], vocabSize, threshold, base) && m.norm.CASED?
    ensures [SPACE] !in BuiltTokens(base, m.merges)
  {
    TabbedBase(m.mode, vocabSize, threshold, base);
    var words, n := CorpusWords(m.mode, m.norm, [TABBED]), Max(0, vocabSize - 4 - |base|);
    CorpusWordsGood(m.mode, m.norm, [TABBED]);
    assert UnitWords(m.mode, words) && m.merges == Learn(words, n).merges;
    hide BuiltWith, CorpusWords, Learn, BuiltTokens, UnitWords;
    LearnedMergesDistinct(m.mode, words, n);
    forall k | 0 <= k < |m.merges| ensures !IsUnit(m.mode, Merged(m.merges[k])) {
      assert Proper(Learn(words, n).merges[k]);
    }
    SpaceNotBuilt(m.mode, base, m.merges);
  }

  lemma TabbedBase(mode: Mode, vocabSize: int, threshold: int, base: seq<Str>)
    requires BaseChoice(multiset(CorpusUnits(mode, CASED, [TABBED])), vocabSize, threshold, base)
    ensures [SPACE] !in base
  {
    var units := CorpusUnits(mode, CASED, [TABBED]);
    TabbedUnits(mode);
    CorpusOne(mode, CASED, TABBED);
    hide CorpusUnits, SplitUnits;
    assert units == [[0x61], [TAB], [0x62]];
    forall i | 0 <= i < |base| ensures base[i] != [SPACE] {
      assert base[i] in units;
    }
  }

  lemma SpaceNotBuilt(mode: Mode, base: seq<Str>, merges: seq<Pair>)
    requires [SPACE] !in base
    requires forall k | 0 <= k < |merges| :: !IsUnit(mode, Merged(merges[k]))
    ensures [SPACE] !in BuiltTokens(base, merges)
  {
  }
}
