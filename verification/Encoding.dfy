/** Encoding and decoding as functions of a tokenizer's fields, and the laws that relate them. */
module Encoding {
  import opened Bytes
  import opened Units
  import opened Merging
  import opened KeptText
  import opened KeptUnits
  import opened WhiteSpaceLaws
  import opened PreTokenizing
  import opened Regex
  import opened Results
  import opened Vocabulary

  /** The fields of a tokenizer, except its cache key. */
  datatype Model = Model(
    mode: Mode, norm: Normalization, tables: Tables, merges: seq<Pair>, specials: set<Str>,
    pad: int, unk: int, bos: int, eos: int)

  /** The split of one word by the merge loop alone, without any cache. */
  function SplitWord(mode: Mode, merges: seq<Pair>, word: Str): Word {
    if word == [] then [] else Replay(SplitUnits(mode, word), merges)
  }

  function SplitWords(mode: Mode, merges: seq<Pair>, words: seq<Str>): seq<Str> {
    if words == [] then [] else SplitWord(mode, merges, words[0]) + SplitWords(mode, merges, words[1..])
  }

  function Tokens(m: Model, text: Str): seq<Str> {
    SplitWords(m.mode, m.merges, PreTokens(m.mode, m.norm, text))
  }

  function IdOf(m: Model, token: Str): int {
    if token in m.tables.vocab then m.tables.vocab[token] else m.unk
  }

  function IdsOf(m: Model, tokens: seq<Str>): seq<int> {
    seq(|tokens|, i requires 0 <= i < |tokens| => IdOf(m, tokens[i]))
  }

  function Encode(m: Model, text: Str, addSpecials: bool): Result<seq<int>> {
    if text == [] then Err(InputError)
    else if !ValidUtf8(text) then Err(EncodingError)
    else
      var ids := IdsOf(m, Tokens(m, text));
      Ok(if addSpecials then [m.bos] + ids + [m.eos] else ids)
  }

  /** What one id adds to the decoded text; unknown ids add nothing. */
  function TextOf(m: Model, id: int, skipSpecials: bool): Str {
    if id !in m.tables.inverse then []
    else
      var token := m.tables.inverse[id];
      if skipSpecials && token in m.specials then [] else token
  }

  function TextsOf(m: Model, ids: seq<int>, skipSpecials: bool): Str {
    if ids == [] then [] else TextOf(m, ids[0], skipSpecials) + TextsOf(m, ids[1..], skipSpecials)
  }

  function Decode(m: Model, ids: seq<int>, skipSpecials: bool): Result<Str> {
    if ids == [] then Err(InputError)
    else if exists i | 0 <= i < |ids| :: ids[i] < 0 then Err(TokenIDError)
    else Ok(TextsOf(m, ids, skipSpecials))
  }

  /** Encoding refuses exactly the empty text and invalid UTF-8; the markers stand around the plain encoding. */
  lemma EncodeMarks(m: Model, text: Str)
    ensures Encode(m, [], true) == Encode(m, [], false) == Err(InputError)
    ensures text != [] && !ValidUtf8(text) ==> Encode(m, text, true) == Encode(m, text, false) == Err(EncodingError)
    ensures text != [] && ValidUtf8(text) ==>
              && Encode(m, text, false).Ok?
              && Encode(m, text, true) == Ok([m.bos] + Encode(m, text, false).value + [m.eos])
  {
    hide ValidUtf8, Tokens;
  }

  /** One id for each token: its own if the vocabulary has it, otherwise the unknown id. */
  lemma EncodeEach(m: Model, text: Str, i: nat)
    requires Encode(m, text, false).Ok? && i < |Tokens(m, text)|
    ensures |Encode(m, text, false).value| == |Tokens(m, text)|
    ensures var t, id := Tokens(m, text)[i], Encode(m, text, false).value[i];
      if t in m.tables.vocab then id == m.tables.vocab[t] else id == m.unk
  {
    hide ValidUtf8, Tokens;
  }

  /** Decoding refuses exactly no ids and a negative id, and otherwise treats each id on its own. */
  lemma DecodeJoins(m: Model, a: seq<int>, b: seq<int>, skip: bool)
    requires a != [] && b != []
    ensures Decode(m, [], skip) == Err(InputError)
    ensures Decode(m, a + b, skip) ==
      if Decode(m, a, skip).Ok? && Decode(m, b, skip).Ok? then Ok(Decode(m, a, skip).value + Decode(m, b, skip).value)
      else Err(TokenIDError)
  {
    TextsOfAppend(m, a, b, skip);
    hide TextsOf;
    assert forall i | 0 <= i < |a| :: (a + b)[i] == a[i];
    assert forall i | 0 <= i < |b| :: (a + b)[|a| + i] == b[i];
  }

  /** A single id: an error if negative, its token if it has one, nothing for an unknown id or a special token skipped. */
  lemma DecodeOne(m: Model, id: int, skip: bool)
    ensures id < 0 ==> Decode(m, [id], skip) == Err(TokenIDError)
    ensures id >= 0 && id !in m.tables.inverse ==> Decode(m, [id], skip) == Ok([])
    ensures id >= 0 && id in m.tables.inverse ==>
              Decode(m, [id], skip) ==
                Ok(if skip && m.tables.inverse[id] in m.specials then [] else m.tables.inverse[id])
  {
    assert [id][1..] == [];
    assert TextsOf(m, [id], skip) == TextOf(m, id, skip) + TextsOf(m, [], skip) == TextOf(m, id, skip);
    assert [id][0] == id;
  }

  /** A LOWERCASE tokenizer encodes texts that differ only in the case of ASCII letters to the same ids or error. */
  lemma CaseEncodesAlike(m: Model, a: Str, b: Str, addSpecials: bool)
    requires m.norm.LOWERCASE? && SameButCase(a, b)
    ensures Encode(m, a, addSpecials) == Encode(m, b, addSpecials)
  {
    CaseIgnored(m.mode, a, b);
    hide PreTokens, ValidUtf8, SplitWords;
  }

  // ---------------------------------------------------------- consistency

  /** Every token has an id that leads back to it, and the special ids are those of the special tokens. */
  ghost predicate Consistent(m: Model) {
    && (forall t | t in m.tables.vocab ::
          m.tables.vocab[t] >= 0 && m.tables.vocab[t] in m.tables.inverse && m.tables.inverse[m.tables.vocab[t]] == t)
    && (forall id | id in m.tables.inverse :: m.tables.inverse[id] in m.tables.vocab && m.tables.vocab[m.tables.inverse[id]] == id)
    && PAD in m.tables.vocab && m.tables.vocab[PAD] == m.pad
    && UNK in m.tables.vocab && m.tables.vocab[UNK] == m.unk
    && BOS in m.tables.vocab && m.tables.vocab[BOS] == m.bos
    && EOS in m.tables.vocab && m.tables.vocab[EOS] == m.eos
    && m.specials == {PAD, UNK, BOS, EOS}
  }

  /** A tokenizer as `build_vocab` leaves it, started fresh. */
  ghost predicate BuiltModel(m: Model, texts: seq<Str>, vocabSize: int, threshold: int) {
    && Built(m.tables, m.merges, m.mode, m.norm, texts, vocabSize, threshold)
    && m.specials == {PAD, UNK, BOS, EOS}
    && m.pad == 0 && m.unk == 1 && m.bos == 2 && m.eos == 3
  }

  lemma TableConsistent(m: Model, tokens: seq<Str>)
    requires IsTable(m.tables, tokens) && |tokens| >= 4 && tokens[..4] == SPECIALS
    requires m.specials == {PAD, UNK, BOS, EOS}
    requires m.pad == 0 && m.unk == 1 && m.bos == 2 && m.eos == 3
    ensures Consistent(m)
  {
    assert tokens[0] == tokens[..4][0] && tokens[1] == tokens[..4][1];
    assert tokens[2] == tokens[..4][2] && tokens[3] == tokens[..4][3];
  }

  /** A built tokenizer is consistent, and holds every merged string. */
  lemma BuiltConsistent(m: Model, texts: seq<Str>, vocabSize: int, threshold: int)
    requires BuiltModel(m, texts, vocabSize, threshold)
    ensures Consistent(m)
    ensures forall k | 0 <= k < |m.merges| :: Merged(m.merges[k]) in m.tables.vocab
  {
    hide BuiltWith, IsTable;
    var base :| BuiltWith(m.tables, m.merges, m.mode, m.norm, texts, vocabSize, threshold, base);
    BuiltTable(m.tables, m.merges, m.mode, m.norm, texts, vocabSize, threshold, base);
    var tokens := BuiltTokens(base, m.merges);
    assert tokens[..4] == SPECIALS;
    TableConsistent(m, tokens);
    TableHoldsMerged(m.tables, base, m.merges);
  }

  lemma TableHoldsMerged(t: Tables, base: seq<Str>, merges: seq<Pair>)
    requires IsTable(t, BuiltTokens(base, merges))
    ensures forall k | 0 <= k < |merges| :: Merged(merges[k]) in t.vocab
  {
    forall k | 0 <= k < |merges| ensures Merged(merges[k]) in t.vocab {
      assert BuiltTokens(base, merges)[4 + |base| + k] == Merged(merges[k]);
    }
  }

  // ------------------------------------------------------- tokens of a text

  lemma {:induction false} MergePassTokens(ts: Word, p: Pair, t: Str)
    requires t in MergePass(ts, p)
    ensures t in ts || t == Merged(p)
  {
    if t == Merged(p) || t == ts[0] {
    } else if |ts| >= 2 && ts[0] == p.0 && ts[1] == p.1 {
      MergePassTokens(ts[2..], p, t);
    } else {
      MergePassTokens(ts[1..], p, t);
    }
  }

  /** Every token of a replay is a unit of the word or a merged string. */
  lemma {:induction false} ReplayTokens(ts: Word, merges: seq<Pair>, t: Str)
    requires t in Replay(ts, merges)
    ensures t in ts || exists k | 0 <= k < |merges| :: t == Merged(merges[k])
    decreases merges
  {
    if merges == [] {
    } else {
      ReplayTokens(MergePass(ts, merges[0]), merges[1..], t);
      if t in MergePass(ts, merges[0]) {
        MergePassTokens(ts, merges[0], t);
      } else {
        var k :| 0 <= k < |merges[1..]| && t == Merged(merges[1..][k]);
        assert t == Merged(merges[k + 1]);
      }
    }
  }

  lemma {:induction false} SplitWordsAll(mode: Mode, merges: seq<Pair>, words: seq<Str>, t: Str)
    requires t in SplitWords(mode, merges, words)
    ensures exists w | w in words :: t in SplitWord(mode, merges, w)
  {
    if t !in SplitWord(mode, merges, words[0]) {
      SplitWordsAll(mode, merges, words[1..], t);
    } else {
      assert words[0] in words;
    }
  }

  /** Splitting into tokens loses nothing of the pre-tokens. */
  lemma {:induction false} SplitWordsKeepText(mode: Mode, merges: seq<Pair>, words: seq<Str>)
    ensures Concat(SplitWords(mode, merges, words)) == Concat(words)
  {
    if words == [] {
    } else {
      SplitWordsKeepText(mode, merges, words[1..]);
      ConcatAppend(SplitWord(mode, merges, words[0]), SplitWords(mode, merges, words[1..]));
      SplitKeepsText(mode, words[0]);
      ReplayKeepsText(SplitUnits(mode, words[0]), merges);
    }
  }

  // ----------------------------------------------------------- round trip

  lemma {:induction false} TextsOfIds(m: Model, tokens: seq<Str>, skip: bool)
    requires Consistent(m)
    requires forall i | 0 <= i < |tokens| :: tokens[i] in m.tables.vocab && !(skip && tokens[i] in m.specials)
    ensures TextsOf(m, IdsOf(m, tokens), skip) == Concat(tokens)
  {
    if tokens == [] {
    } else {
      assert IdsOf(m, tokens)[1..] == IdsOf(m, tokens[1..]);
      TextsOfIds(m, tokens[1..], skip);
    }
  }

  lemma {:induction false} TextsOfAppend(m: Model, a: seq<int>, b: seq<int>, skip: bool)
    ensures TextsOf(m, a + b, skip) == TextsOf(m, a, skip) + TextsOf(m, b, skip)
  {
    if a == [] {
      assert a + b == b;
    } else {
      assert (a + b)[1..] == a[1..] + b;
      TextsOfAppend(m, a[1..], b, skip);
    }
  }

  /** What decoding gives back of an encoded text: its kept form, inside the two markers if they are asked for. */
  function Restored(norm: Normalization, text: Str, addSpecials: bool, skipSpecials: bool): Str {
    if addSpecials && !skipSpecials then BOS + Kept(norm, text) + EOS else Kept(norm, text)
  }

  lemma DecodeTokens(m: Model, tokens: seq<Str>, add: bool, skip: bool)
    requires Consistent(m) && tokens != []
    requires forall i | 0 <= i < |tokens| :: tokens[i] in m.tables.vocab && !(skip && tokens[i] in m.specials)
    ensures var ids := IdsOf(m, tokens);
      Decode(m, if add then [m.bos] + ids + [m.eos] else ids, skip)
      == Ok(if add && !skip then BOS + Concat(tokens) + EOS else Concat(tokens))
  {
    var ids := IdsOf(m, tokens);
    TextsOfIds(m, tokens, skip);
    NoNegativeIds(m, tokens);
    hide Consistent, IdsOf;
    if add {
      MarkedText(m, ids, skip);
    }
  }

  lemma MarkedTexts(m: Model, ids: seq<int>, skip: bool)
    requires Consistent(m)
    ensures var text := TextsOf(m, ids, skip);
      TextsOf(m, [m.bos] + ids + [m.eos], skip) == if skip then text else BOS + text + EOS
  {
    MarkerTexts(m, skip);
    hide Consistent, TextsOf;
    var text := TextsOf(m, ids, skip);
    TextsOfAppend(m, [m.bos] + ids, [m.eos], skip);
    TextsOfAppend(m, [m.bos], ids, skip);
    assert [] + text + [] == text;
  }

  lemma MarkedText(m: Model, ids: seq<int>, skip: bool)
    requires Consistent(m) && forall i | 0 <= i < |ids| :: ids[i] >= 0
    ensures var text := TextsOf(m, ids, skip);
      Decode(m, [m.bos] + ids + [m.eos], skip) == Ok(if skip then text else BOS + text + EOS)
  {
    MarkedTexts(m, ids, skip);
    NoNegativeIds(m, []);
    hide Consistent, TextsOf;
    var marked := [m.bos] + ids + [m.eos];
    assert forall i | 0 <= i < |marked| :: marked[i] >= 0;
  }

  lemma NoNegativeIds(m: Model, tokens: seq<Str>)
    requires Consistent(m)
    requires forall i | 0 <= i < |tokens| :: tokens[i] in m.tables.vocab
    ensures forall i | 0 <= i < |tokens| :: IdsOf(m, tokens)[i] >= 0
    ensures m.bos >= 0 && m.eos >= 0
  {
  }

  lemma MarkerTexts(m: Model, skip: bool)
    requires Consistent(m)
    ensures TextsOf(m, [m.bos], skip) == if skip then [] else BOS
    ensures TextsOf(m, [m.eos], skip) == if skip then [] else EOS
  {
  }

  /**
   * Round trip on any consistent tokenizer: with every token in the vocabulary, decoding gives back the text with
   * only letter case and white space changed.
   */
  lemma RoundTrip(m: Model, text: Str, add: bool, skip: bool)
    requires Consistent(m)
    requires text != [] && ValidUtf8(text)
    requires forall t | t in Tokens(m, text) :: t in m.tables.vocab
    ensures Encode(m, text, add).Ok?
    ensures Decode(m, Encode(m, text, add).value, skip) == Ok(Restored(m.norm, text, add, skip))
  {
    TokensKeepText(m, text);
    KeptNonEmpty(m.norm, text);
    OrdinaryTokens(m, text);
    hide Consistent, Tokens, Kept, Decode;
    DecodeTokens(m, Tokens(m, text), add, skip);
  }

  lemma OrdinaryTokens(m: Model, text: Str)
    requires Consistent(m) && ValidUtf8(text)
    ensures forall t | t in Tokens(m, text) :: t !in m.specials
  {
    SpecialsFixed(m);
    hide Consistent, Tokens, ValidUtf8;
    forall t | t in Tokens(m, text) ensures t !in m.specials {
      TokenIsNoSpecial(m, text, t);
    }
  }

  lemma SpecialsFixed(m: Model)
    requires Consistent(m)
    ensures m.specials == {PAD, UNK, BOS, EOS}
  {
  }

  lemma TokensKeepText(m: Model, text: Str)
    ensures Concat(Tokens(m, text)) == Kept(m.norm, text)
  {
    PreTokensKeepText(m.mode, Normalize(m.norm, text));
    SplitWordsKeepText(m.mode, m.merges, PreTokens(m.mode, m.norm, text));
  }

  lemma KeptNonEmpty(norm: Normalization, text: Str)
    requires text != []
    ensures Kept(norm, text) != []
  {
  }

  // -------------------------------------------------- a built tokenizer

  lemma TokenOrigin(m: Model, text: Str, t: Str) returns (w: Str)
    requires ValidUtf8(text) && t in Tokens(m, text)
    ensures w in PreTokens(m.mode, m.norm, text) && w != [] && Splittable(m.mode, w) && Unmixed(w)
    ensures t in Replay(SplitUnits(m.mode, w), m.merges)
  {
    var words := PreTokens(m.mode, m.norm, text);
    SplitWordsAll(m.mode, m.merges, words, t);
    w :| w in words && t in SplitWord(m.mode, m.merges, w);
    var i :| 0 <= i < |words| && words[i] == w;
    var s := Normalize(m.norm, text);
    NormalizeValid(m.norm, text);
    PiecesUnmixed(m.mode, s);
    PiecesValid(s);
  }

  /** A token of any text is part of one pre-token, so no text spells a special token. */
  lemma TokenIsNoSpecial(m: Model, text: Str, t: Str)
    requires ValidUtf8(text) && t in Tokens(m, text)
    ensures t !in {PAD, UNK, BOS, EOS}
  {
    var w := TokenOrigin(m, text, t);
    var us := SplitUnits(m.mode, w);
    var r := Replay(us, m.merges);
    var i :| 0 <= i < |r| && r[i] == t;
    ReplayKeepsText(us, m.merges);
    SplitKeepsText(m.mode, w);
    hide Replay, SplitUnits;
    PartIsNoSpecial(r, i);
  }

  lemma PartIsNoSpecial(r: Word, i: nat)
    requires i < |r| && Unmixed(Concat(r))
    ensures r[i] !in SPECIALS
  {
    hide Concat, SPECIALS;
    if r[i] in SPECIALS {
      SpecialsAreLong(r[i]);
      OnePart(r, i);
      ConcatHolds(r, i, i + 1, r[i][0]);
      ConcatHolds(r, i, i + 1, r[i][1]);
    }
  }

  lemma OnePart(r: Word, i: nat)
    requires i < |r|
    ensures Concat(r[i..i + 1]) == r[i]
  {
  }

  /** Every unit of the kept text was admitted to the vocabulary. */
  ghost predicate Covered(m: Model, text: Str) {
    forall u | u in SplitUnits(m.mode, Kept(m.norm, text)) :: u in m.tables.vocab
  }

  /** A list holds the units of these words and no others. */
  ghost predicate HoldsUnits(mode: Mode, us: seq<Str>, words: seq<Str>) {
    && (forall i, u | 0 <= i < |words| && u in SplitUnits(mode, words[i]) :: u in us)
    && (forall u | u in us :: exists i | 0 <= i < |words| :: u in SplitUnits(mode, words[i]))
  }

  lemma HoldsMore(mode: Mode, us: seq<Str>, word: Str, words: seq<Str>)
    requires HoldsUnits(mode, us, words)
    ensures HoldsUnits(mode, SplitUnits(mode, word) + us, [word] + words)
  {
    var all := [word] + words;
    forall u | u in SplitUnits(mode, word) + us ensures exists i | 0 <= i < |all| :: u in SplitUnits(mode, all[i]) {
      if u in SplitUnits(mode, word) {
        assert all[0] == word;
      } else {
        var i :| 0 <= i < |words| && u in SplitUnits(mode, words[i]);
        assert all[i + 1] == words[i];
      }
    }
  }

  lemma {:induction false} UnitsOfWords(mode: Mode, words: seq<Str>) returns (us: seq<Str>)
    requires forall i | 0 <= i < |words| :: Splittable(mode, words[i])
    ensures AllUnits(mode, us) && Concat(us) == Concat(words) && HoldsUnits(mode, us, words)
  {
    if words == [] {
      us := [];
    } else {
      var rest := UnitsOfWords(mode, words[1..]);
      us := SplitUnits(mode, words[0]) + rest;
      SplitGivesUnits(mode, words[0]);
      SplitKeepsText(mode, words[0]);
      ConcatAppend(SplitUnits(mode, words[0]), rest);
      HoldsMore(mode, rest, words[0], words[1..]);
      assert [words[0]] + words[1..] == words;
      hide HoldsUnits, SplitUnits;
    }
  }

  lemma {:induction false} ConcatValid(words: seq<Str>)
    requires forall i | 0 <= i < |words| :: ValidUtf8(words[i])
    ensures ValidUtf8(Concat(words))
  {
    if words == [] {
    } else {
      ConcatValid(words[1..]);
      ValidConcat(words[0], Concat(words[1..]));
    }
  }

  /** The kept text is valid UTF-8 again. */
  lemma KeptValid(norm: Normalization, text: Str)
    requires ValidUtf8(text)
    ensures ValidUtf8(Kept(norm, text))
  {
    var s := Normalize(norm, text);
    NormalizeValid(norm, text);
    PiecesValid(s);
    PreTokensKeepText(UNICODE, s);
    ConcatValid(SquashAll(Pieces(UNICODE, s)));
  }

  lemma PreTokensSplittable(m: Model, text: Str)
    requires ValidUtf8(text)
    ensures forall i | 0 <= i < |PreTokens(m.mode, m.norm, text)| :: Splittable(m.mode, PreTokens(m.mode, m.norm, text)[i])
  {
    NormalizeValid(m.norm, text);
    PiecesValid(Normalize(m.norm, text));
  }

  /** The units of the pre-tokens are the units of the kept text. */
  lemma PreTokensHoldUnits(m: Model, text: Str)
    requires ValidUtf8(text)
    ensures HoldsUnits(m.mode, SplitUnits(m.mode, Kept(m.norm, text)), PreTokens(m.mode, m.norm, text))
  {
    var words := PreTokens(m.mode, m.norm, text);
    PreTokensSplittable(m, text);
    PreTokensKeepText(m.mode, Normalize(m.norm, text));
    KeptValid(m.norm, text);
    SplitGivesUnits(m.mode, Kept(m.norm, text));
    SplitKeepsText(m.mode, Kept(m.norm, text));
    hide HoldsUnits, SplitUnits, Splittable;
    var us := UnitsOfWords(m.mode, words);
    UnitsUnique(m.mode, us, SplitUnits(m.mode, Kept(m.norm, text)));
  }

  lemma PreTokenUnits(m: Model, text: Str, w: Str, u: Str)
    requires ValidUtf8(text)
    requires w in PreTokens(m.mode, m.norm, text) && u in SplitUnits(m.mode, w)
    ensures u in SplitUnits(m.mode, Kept(m.norm, text))
  {
    PreTokensHoldUnits(m, text);
  }

  lemma KeptUnitOrigin(m: Model, text: Str, u: Str) returns (w: Str)
    requires ValidUtf8(text) && u in SplitUnits(m.mode, Kept(m.norm, text))
    ensures w in PreTokens(m.mode, m.norm, text) && u in SplitUnits(m.mode, w)
  {
    PreTokensHoldUnits(m, text);
    var words := PreTokens(m.mode, m.norm, text);
    var i :| 0 <= i < |words| && u in SplitUnits(m.mode, words[i]);
    w := words[i];
  }

  lemma CoveredToken(m: Model, text: Str, t: Str)
    requires forall k | 0 <= k < |m.merges| :: Merged(m.merges[k]) in m.tables.vocab
    requires ValidUtf8(text) && Covered(m, text) && t in Tokens(m, text)
    ensures t in m.tables.vocab
  {
    var w := TokenOrigin(m, text, t);
    hide Tokens, Kept, SplitUnits, Replay, PreTokens, Splittable, Unmixed;
    ReplayTokens(SplitUnits(m.mode, w), m.merges, t);
    if t in SplitUnits(m.mode, w) {
      PreTokenUnits(m, text, w, t);
    }
  }

  lemma CoveredTokens(m: Model, texts: seq<Str>, vocabSize: int, threshold: int, text: Str)
    requires BuiltModel(m, texts, vocabSize, threshold)
    requires ValidUtf8(text) && Covered(m, text)
    ensures forall t | t in Tokens(m, text) :: t in m.tables.vocab
  {
    hide Built;
    BuiltConsistent(m, texts, vocabSize, threshold);
    hide *;
    forall t | t in Tokens(m, text) ensures t in m.tables.vocab {
      CoveredToken(m, text, t);
    }
  }

  /** Round trip on a built tokenizer, for every text whose units were admitted. */
  lemma BuiltRoundTrip(m: Model, texts: seq<Str>, vocabSize: int, threshold: int, text: Str, add: bool, skip: bool)
    requires BuiltModel(m, texts, vocabSize, threshold)
    requires text != [] && ValidUtf8(text) && Covered(m, text)
    ensures Encode(m, text, add).Ok?
    ensures Decode(m, Encode(m, text, add).value, skip) == Ok(Restored(m.norm, text, add, skip))
  {
    hide Built;
    BuiltConsistent(m, texts, vocabSize, threshold);
    hide Consistent, Covered, Encode, Decode, Restored;
    CoveredTokens(m, texts, vocabSize, threshold, text);
    RoundTrip(m, text, add, skip);
  }

  lemma LowerWhite(norm: Normalization, text: Str)
    ensures HasWhite(Normalize(norm, text)) <==> HasWhite(text)
  {
    var s := Normalize(norm, text);
    assert forall i | 0 <= i < |s| :: IsWhite(s[i]) <==> IsWhite(text[i]);
  }

  /** The units of the kept text are units of the normalised text, and spaces exactly if the text holds white space. */
  lemma UnitsOfKept(mode: Mode, norm: Normalization, text: Str)
    requires ValidUtf8(text)
    ensures forall u | u in SplitUnits(mode, Kept(norm, text)) ::
              u in SplitUnits(mode, Normalize(norm, text)) || (u == [SPACE] && HasWhite(text))
    ensures HasWhite(text) ==> [SPACE] in SplitUnits(mode, Kept(norm, text))
  {
    var s := Normalize(norm, text);
    NormalizeValid(norm, text);
    KeptValid(norm, text);
    SplitGivesUnits(mode, s);
    SplitTailed(mode, s);
    SplitKeepsText(mode, s);
    LowerWhite(norm, text);
    var vs := RespacedUnits(mode, SplitUnits(mode, s));
    SplitGivesUnits(mode, Kept(norm, text));
    SplitKeepsText(mode, Kept(norm, text));
    UnitsUnique(mode, vs, SplitUnits(mode, Kept(norm, text)));
    hide SplitUnits, HasWhite, Respace, Normalize;
  }

  lemma RespaceAddsNoWhite(s: Str)
    requires !HasWhite(s)
    ensures Respace(s) == s
  {
    assert NoWhite(s);
    RespaceWord(s, []);
    RespaceNothing();
    assert s + [] == s;
  }

  /** What covers the kept text covers what is kept of it the next time. */
  lemma CoveredAgain(m: Model, text: Str)
    requires ValidUtf8(text) && Covered(m, text)
    ensures Covered(m, Kept(m.norm, text))
  {
    var once := Kept(m.norm, text);
    KeptValid(m.norm, text);
    UnitsOfKept(m.mode, m.norm, text);
    UnitsOfKept(m.mode, m.norm, once);
    NormalizeKept(m.norm, text);
    LowerWhite(m.norm, text);
    if !HasWhite(text) {
      RespaceAddsNoWhite(Normalize(m.norm, text));
    }
    hide SplitUnits, HasWhite, Kept, Normalize;
  }

  lemma NormalizeKept(norm: Normalization, text: Str)
    ensures Normalize(norm, Kept(norm, text)) == Kept(norm, text)
  {
    if norm.LOWERCASE? {
      LowerRespace(text);
    }
  }

  lemma RestoredSame(norm: Normalization, a: Str, b: Str, add: bool, skip: bool)
    ensures Restored(norm, a, add, skip) == Restored(norm, b, add, skip) <==> Kept(norm, a) == Kept(norm, b)
  {
    hide Kept, BOS, EOS;
    var x, y := Kept(norm, a), Kept(norm, b);
    if add && !skip && BOS + x + EOS == BOS + y + EOS {
      assert |x| == |y|;
      assert (BOS + x + EOS)[|BOS|..|BOS| + |x|] == x && (BOS + y + EOS)[|BOS|..|BOS| + |y|] == y;
    }
  }

  /** Encoding and decoding once more changes nothing exactly when every white run of the text obeys the third law. */
  lemma RoundTripIdempotent(m: Model, texts: seq<Str>, vocabSize: int, threshold: int, text: Str, add: bool, skip: bool)
    requires BuiltModel(m, texts, vocabSize, threshold)
    requires text != [] && ValidUtf8(text) && Covered(m, text)
    ensures var once := Kept(m.norm, text);
      && Encode(m, once, add).Ok?
      && (Decode(m, Encode(m, once, add).value, skip) == Ok(Restored(m.norm, text, add, skip)) <==>
            Obeys(Lasting, Normalize(m.norm, text)))
  {
    var once := Kept(m.norm, text);
    KeptValid(m.norm, text);
    KeptNonEmpty(m.norm, text);
    CoveredAgain(m, text);
    hide *;
    BuiltRoundTrip(m, texts, vocabSize, threshold, once, add, skip);
    KeptIdempotent(m.norm, text);
    RestoredSame(m.norm, once, text, add, skip);
  }

  /** Without markers no text encodes to the pad, bos or eos id, whatever literal markers it spells out. */
  lemma NeverSpecialIds(m: Model, texts: seq<Str>, vocabSize: int, threshold: int, text: Str)
    requires BuiltModel(m, texts, vocabSize, threshold)
    requires text != [] && ValidUtf8(text)
    ensures Encode(m, text, false).Ok?
    ensures forall id | id in Encode(m, text, false).value :: id != m.pad && id != m.bos && id != m.eos
  {
    hide Built;
    BuiltConsistent(m, texts, vocabSize, threshold);
    hide Tokens;
    var tokens := Tokens(m, text);
    forall i | 0 <= i < |tokens| ensures IdOf(m, tokens[i]) !in {m.pad, m.bos, m.eos} {
      TokenIsNoSpecial(m, text, tokens[i]);
      if tokens[i] in m.tables.vocab {
        assert m.tables.inverse[m.tables.vocab[tokens[i]]] == tokens[i];
        assert m.tables.inverse[m.tables.vocab[PAD]] == PAD;
        assert m.tables.inverse[m.tables.vocab[BOS]] == BOS;
        assert m.tables.inverse[m.tables.vocab[EOS]] == EOS;
      }
    }
  }
}
