/** Saving and loading again: what comes back, and exactly when it is what was saved. */
module SaveAndLoad {
  import opened Bytes
  import opened Units
  import opened Merging
  import opened Vocabulary
  import opened Encoding
  import opened Escaping
  import opened VocabFile
  import opened MergeLearning

  /** Ids that `std::stoi` reads back, and no empty half in a rule. */
  ghost predicate Storable(m: Model) {
    && (forall t | t in m.tables.vocab :: FitsInt(m.tables.vocab[t]))
    && (forall k | 0 <= k < |m.merges| :: Proper(m.merges[k]))
  }

  /** No vocabulary line and no rule line reads as a comment or a header. */
  ghost predicate Clean(m: Model) {
    CleanTokens(m) && CleanMerges(m)
  }

  ghost predicate CleanTokens(m: Model) {
    forall t | t in m.tables.vocab :: !ReadsAsHeader(t)
  }

  ghost predicate CleanMerges(m: Model) {
    forall k | 0 <= k < |m.merges| :: !ReadsAsHeader(m.merges[k].0)
  }

  lemma ReadNone(st: Reading)
    ensures ReadLines(st, []) == Continue(st)
  {
  }

  /** Reading one line more. */
  lemma ReadSnoc(st: Reading, front: seq<Str>, line: Str)
    ensures ReadLines(st, front + [line]) ==
      if ReadLines(st, front).Throw? then ReadLines(st, front) else ReadLine(ReadLines(st, front).st, line)
  {
    hide ReadLine, ReadLines;
    ReadLinesAppend(st, front, [line]);
    var before := ReadLines(st, front);
    if before.Continue? {
      ReadOneLine(before.st, line);
    }
  }

  // --------------------------------------------------- one line of a section

  lemma TokenLineRead(st: Reading, vocab: map<Str, int>, t: Str)
    requires t in vocab && FitsInt(vocab[t]) && !ReadsAsHeader(t) && st.section.InVocab?
    ensures var m := st.m.(tables := st.m.tables.Enter(t, vocab[t]));
      ReadLine(st, VocabLine(vocab, t))
      == Continue(st.(m := if vocab[t] in {m.pad, m.unk, m.bos, m.eos} then m.(specials := m.specials + {t}) else m))
  {
    var line := VocabLine(vocab, t);
    FieldHeaderish(t, Printed(vocab[t]));
    ReadPlainLine(st, line);
    TabSplit(t, Printed(vocab[t]));
    StoiPrinted(vocab[t]);
    UnescapeEscape(t);
    hide Headerish, ReadsAsHeader, Escape, Unescape, Find, Stoi, Printed, ReadLine;
  }

  lemma TabSplit(t: Str, tail: Str)
    ensures var line := Escape(t) + [TAB] + tail;
      Find(line, TAB) == |Escape(t)| < |line| && line[..|Escape(t)|] == Escape(t) && line[|Escape(t)| + 1..] == tail
  {
    EscapeHasNoSeparator(t);
    hide Escape;
    FindIs(Escape(t), TAB, tail);
  }

  lemma MergeLineRead(st: Reading, p: Pair)
    requires Proper(p) && !ReadsAsHeader(p.0) && st.section.InMerges?
    ensures ReadLine(st, MergeLine(p)) == Continue(st.(m := st.m.(merges := st.m.merges + [p])))
  {
    var line := MergeLine(p);
    FieldHeaderish(p.0, Escape(p.1));
    ReadPlainLine(st, line);
    TabSplit(p.0, Escape(p.1));
    UnescapeEscape(p.0);
    UnescapeEscape(p.1);
    hide Headerish, ReadsAsHeader, Escape, Unescape, Find, ReadLine;
  }

  // ------------------------------------------------------ the good direction

  /** The fields once the tokens in `done` are read. */
  function Partial(m: Model, done: seq<Str>): Model {
    m.(tables := Tables(
         map t | t in m.tables.vocab && t in done :: m.tables.vocab[t],
         map id | id in m.tables.inverse && m.tables.inverse[id] in done :: m.tables.inverse[id]),
       merges := [],
       specials := set t | t in done && HasSpecialId(m, t))
  }

  predicate HasSpecialId(m: Model, t: Str) {
    t in m.tables.vocab && m.tables.vocab[t] in {m.pad, m.unk, m.bos, m.eos}
  }

  lemma PartialNext(m: Model, done: seq<Str>, t: Str)
    requires Consistent(m) && t in m.tables.vocab && t !in done
    ensures var p := Partial(m, done);
      var q := p.(tables := p.tables.Enter(t, m.tables.vocab[t]));
      Partial(m, done + [t])
      == if m.tables.vocab[t] in {m.pad, m.unk, m.bos, m.eos} then q.(specials := q.specials + {t}) else q
  {
    var p, r := Partial(m, done), Partial(m, done + [t]);
    assert forall x :: x in done + [t] <==> x in done || x == t;
    assert r.tables.vocab == p.tables.vocab[t := m.tables.vocab[t]];
    forall id | id in m.tables.inverse ensures m.tables.inverse[id] == t <==> id == m.tables.vocab[t] {
      assert m.tables.vocab[m.tables.inverse[id]] == id;
    }
    assert r.tables.inverse == p.tables.inverse[m.tables.vocab[t] := t];
    assert r.specials == if HasSpecialId(m, t) then p.specials + {t} else p.specials by {
      hide HasSpecialId;
      assert forall x :: x in r.specials <==> x in p.specials || (x == t && HasSpecialId(m, t));
    }
  }

  lemma {:induction false} TokensRead(m: Model, order: seq<Str>, n: nat)
    requires Consistent(m) && Storable(m) && CleanTokens(m) && IsOrder(m.tables.vocab, order) && n <= |order|
    ensures ReadLines(AfterHeader(m), VocabLines(m.tables.vocab, order)[..n])
         == Continue(Reading(Partial(m, order[..n]), InVocab))
  {
    hide ReadLines, ReadLine, VocabLine, AfterHeader, Partial, Consistent, Storable, CleanTokens;
    var lines := VocabLines(m.tables.vocab, order);
    if n == 0 {
      PartialNone(m);
      ReadNone(AfterHeader(m));
      assert lines[..0] == [] && order[..0] == [];
    } else {
      TokensRead(m, order, n - 1);
      var t, done := order[n - 1], order[..n - 1];
      assert order[..n] == done + [t] && t !in done;
      assert lines[..n] == lines[..n - 1] + [VocabLine(m.tables.vocab, t)];
      TokenReadInto(m, done, t);
      ReadSnoc(AfterHeader(m), lines[..n - 1], VocabLine(m.tables.vocab, t));
    }
  }

  lemma TokenReadInto(m: Model, done: seq<Str>, t: Str)
    requires Consistent(m) && Storable(m) && CleanTokens(m) && t in m.tables.vocab && t !in done
    ensures ReadLine(Reading(Partial(m, done), InVocab), VocabLine(m.tables.vocab, t))
         == Continue(Reading(Partial(m, done + [t]), InVocab))
  {
    hide ReadLine, VocabLine, ReadsAsHeader, Consistent;
    PartialNext(m, done, t);
    TokenLineRead(Reading(Partial(m, done), InVocab), m.tables.vocab, t);
  }

  lemma PartialNone(m: Model)
    ensures Reading(Partial(m, []), InVocab) == AfterHeader(m)
  {
  }

  lemma PartialAll(m: Model, order: seq<Str>)
    requires Consistent(m) && IsOrder(m.tables.vocab, order)
    ensures Partial(m, order) == m.(merges := [])
  {
    var p := Partial(m, order);
    assert p.tables.vocab == m.tables.vocab;
    forall id | id in m.tables.inverse ensures m.tables.inverse[id] in order {
      assert m.tables.inverse[id] in m.tables.vocab;
    }
    assert p.tables.inverse == m.tables.inverse;
    SpecialIds(m);
    forall t ensures HasSpecialId(m, t) <==> t in {PAD, UNK, BOS, EOS} {
      assert t in m.tables.vocab ==> m.tables.inverse[m.tables.vocab[t]] == t;
    }
    assert forall t | t in {PAD, UNK, BOS, EOS} :: t in order;
    hide HasSpecialId;
    assert p.specials == {PAD, UNK, BOS, EOS};
  }

  lemma SpecialIds(m: Model)
    requires Consistent(m)
    ensures m.tables.inverse[m.pad] == PAD && m.tables.inverse[m.unk] == UNK
    ensures m.tables.inverse[m.bos] == BOS && m.tables.inverse[m.eos] == EOS
  {
  }

  lemma {:induction false} MergesRead(st: Reading, merges: seq<Pair>)
    requires st.section.InMerges?
    requires forall k | 0 <= k < |merges| :: Proper(merges[k]) && !ReadsAsHeader(merges[k].0)
    ensures ReadLines(st, MergeLines(merges)) == Continue(st.(m := st.m.(merges := st.m.merges + merges)))
  {
    hide ReadLines, ReadLine, MergeLine, ReadsAsHeader, Proper;
    if merges == [] {
      ReadNone(st);
      assert st.m.merges + [] == st.m.merges;
    } else {
      var n := |merges| - 1;
      var front, p := merges[..n], merges[n];
      MergesRead(st, front);
      MergeLineRead(st.(m := st.m.(merges := st.m.merges + front)), p);
      ReadSnoc(st, MergeLines(front), MergeLine(p));
      assert MergeLines(merges) == MergeLines(front) + [MergeLine(p)];
      assert st.m.merges + merges == st.m.merges + front + [p];
    }
  }

  lemma FinishConsistent(m: Model, section: Section)
    requires Consistent(m)
    ensures Finish(Reading(m, section)) == Continue(Reading(m, section))
  {
  }

  /** Where the merge section begins in the saved lines. */
  function MergeHeader(m: Model): Str {
    BPE_MERGES + [SPACE] + Printed(|m.merges|)
  }

  lemma SavedSplit(m0: Model, m: Model, order: seq<Str>)
    requires forall i | 0 <= i < |order| :: order[i] in m.tables.vocab
    requires FitsInt(m.pad) && FitsInt(m.unk) && FitsInt(m.bos) && FitsInt(m.eos)
    ensures ReadLines(StartReading(m0), SavedLines(m, order)) ==
      match ReadLines(AfterHeader(m), VocabLines(m.tables.vocab, order))
      case Throw(st, e) => Throw(st, e)
      case Continue(st) => ReadLines(st.(section := InMerges), MergeLines(m.merges))
  {
    HeaderRead(m0, m);
    var vs, ms := VocabLines(m.tables.vocab, order), MergeLines(m.merges);
    hide Header, VocabLines, MergeLines, ReadLines, ReadLine, Printed;
    var start := StartReading(m0);
    ReadLinesAppend(start, Header(m) + vs + [MergeHeader(m)], ms);
    ReadLinesAppend(start, Header(m) + vs, [MergeHeader(m)]);
    ReadLinesAppend(start, Header(m), vs);
    match ReadLines(AfterHeader(m), vs)
    case Throw(_, _) =>
    case Continue(st) =>
      SectionLinesRead(st, |m.merges|);
      ReadOneLine(st, MergeHeader(m));
  }

  /** A clean, storable, consistent tokenizer comes back whole, read into any tokenizer. */
  lemma LoadRestores(m0: Model, m: Model, order: seq<Str>)
    requires Consistent(m) && Storable(m) && Clean(m) && IsOrder(m.tables.vocab, order)
    ensures var end := ReadLines(StartReading(m0), SavedLines(m, order));
      end.Continue? && Finish(end.st) == Continue(Reading(m, InMerges))
  {
    SavedSplit(m0, m, order);
    hide SavedLines, ReadLines, StartReading, Finish;
    AllTokensRead(m, order);
    var st := Reading(m.(merges := []), InMerges);
    MergesRead(st, m.merges);
    assert [] + m.merges == m.merges;
    hide MergeLines, VocabLines, IsOrder, Storable, Clean, Consistent;
    FinishConsistent(m, InMerges);
  }

  lemma AllTokensRead(m: Model, order: seq<Str>)
    requires Consistent(m) && Storable(m) && CleanTokens(m) && IsOrder(m.tables.vocab, order)
    ensures ReadLines(AfterHeader(m), VocabLines(m.tables.vocab, order)) == Continue(Reading(m.(merges := []), InVocab))
  {
    TokensRead(m, order, |order|);
    PartialAll(m, order);
    var vs := VocabLines(m.tables.vocab, order);
    assert vs[..|order|] == vs && order[..|order|] == order;
  }

  // ------------------------------------------------------- the bad direction

  /** A body line never switches to the vocabulary or special section, and never enters a header-like token. */
  lemma TokenLineEffect(st: Reading, vocab: map<Str, int>, t: Str)
    requires t in vocab && (st.section.InVocab? || st.section.InMerges?)
    ensures var r := ReadLine(st, VocabLine(vocab, t));
      r.Continue? ==>
        && (r.st.section.InVocab? || r.st.section.InMerges?)
        && forall x | x in r.st.m.tables.vocab :: x in st.m.tables.vocab || (x == t && !ReadsAsHeader(t))
  {
    var line := VocabLine(vocab, t);
    FieldHeaderish(t, Printed(vocab[t]));
    if !Headerish(line) {
      ReadPlainLine(st, line);
      TabSplit(t, Printed(vocab[t]));
      UnescapeEscape(t);
      hide Headerish, ReadsAsHeader, Escape, Unescape, Find, Stoi, Printed, ReadLine;
    } else {
      HeaderLineEffect(st, line);
    }
  }

  lemma HeaderLineEffect(st: Reading, line: Str)
    requires Headerish(line) && line != SPECIAL_TOKENS && line != VOCAB
    ensures var r := ReadLine(st, line);
      r.Continue? ==> r.st.m.tables == st.m.tables && r.st.m.merges == st.m.merges && (r.st.section == st.section || r.st.section.InMerges?)
  {
  }

  lemma {:induction false} TokensReadClean(m: Model, order: seq<Str>, n: nat)
    requires n <= |order| && forall i | 0 <= i < |order| :: order[i] in m.tables.vocab
    ensures var r := ReadLines(AfterHeader(m), VocabLines(m.tables.vocab, order)[..n]);
      r.Continue? ==>
        && (r.st.section.InVocab? || r.st.section.InMerges?)
        && forall x | x in r.st.m.tables.vocab :: !ReadsAsHeader(x)
  {
    hide ReadLines, ReadLine, VocabLine, ReadsAsHeader;
    var lines := VocabLines(m.tables.vocab, order);
    if n == 0 {
      assert lines[..0] == [];
      ReadNone(AfterHeader(m));
    } else {
      TokensReadClean(m, order, n - 1);
      var t := order[n - 1];
      var before := ReadLines(AfterHeader(m), lines[..n - 1]);
      assert lines[..n] == lines[..n - 1] + [VocabLine(m.tables.vocab, t)];
      ReadSnoc(AfterHeader(m), lines[..n - 1], VocabLine(m.tables.vocab, t));
      if before.Continue? {
        TokenLineEffect(before.st, m.tables.vocab, t);
      }
    }
  }

  lemma MergeLineEffect(st: Reading, p: Pair)
    requires st.section.InMerges?
    ensures var r := ReadLine(st, MergeLine(p));
      r.Continue? ==>
        && r.st.section.InMerges? && r.st.m.tables.vocab == st.m.tables.vocab
        && |r.st.m.merges| == |st.m.merges| + if ReadsAsHeader(p.0) then 0 else 1
  {
    var line := MergeLine(p);
    FieldHeaderish(p.0, Escape(p.1));
    if !Headerish(line) {
      ReadPlainLine(st, line);
      hide Headerish, ReadsAsHeader, Escape, Unescape, Find, ReadLine;
    } else {
      HeaderLineEffect(st, line);
    }
  }

  function CleanCount(merges: seq<Pair>): nat {
    if merges == [] then 0
    else CleanCount(merges[..|merges| - 1]) + if ReadsAsHeader(merges[|merges| - 1].0) then 0 else 1
  }

  lemma {:induction false} CleanCountFull(merges: seq<Pair>)
    ensures CleanCount(merges) <= |merges|
    ensures CleanCount(merges) == |merges| ==> forall k | 0 <= k < |merges| :: !ReadsAsHeader(merges[k].0)
  {
    hide ReadsAsHeader;
    if merges == [] {
    } else {
      var n := |merges| - 1;
      CleanCountFull(merges[..n]);
      assert forall k | 0 <= k < n :: merges[k] == merges[..n][k];
    }
  }

  lemma {:induction false} MergesReadCount(st: Reading, merges: seq<Pair>)
    requires st.section.InMerges?
    ensures var r := ReadLines(st, MergeLines(merges));
      r.Continue? ==>
        && r.st.section.InMerges? && r.st.m.tables.vocab == st.m.tables.vocab
        && |r.st.m.merges| == |st.m.merges| + CleanCount(merges)
  {
    hide ReadLines, ReadLine, MergeLine, ReadsAsHeader;
    if merges == [] {
      ReadNone(st);
    } else {
      var n := |merges| - 1;
      var front, p := merges[..n], merges[n];
      MergesReadCount(st, front);
      assert MergeLines(merges) == MergeLines(front) + [MergeLine(p)];
      ReadSnoc(st, MergeLines(front), MergeLine(p));
      var before := ReadLines(st, MergeLines(front));
      if before.Continue? {
        MergeLineEffect(before.st, p);
      }
    }
  }

  /** If the fields come back, no line of the file read as a comment or a header. */
  lemma RestoredMeansClean(m0: Model, m: Model, order: seq<Str>)
    requires Consistent(m) && Storable(m) && IsOrder(m.tables.vocab, order)
    requires var end := ReadLines(StartReading(m0), SavedLines(m, order));
      end.Continue? && Finish(end.st).Continue? && Finish(end.st).st.m == m
    ensures Clean(m)
  {
    SavedSplit(m0, m, order);
    TokensReadClean(m, order, |order|);
    var vs := VocabLines(m.tables.vocab, order);
    assert vs[..|order|] == vs;
    var mid := ReadLines(AfterHeader(m), vs);
    hide SavedLines, VocabLines, ReadsAsHeader, StartReading;
    MergesReadCount(mid.st.(section := InMerges), m.merges);
    var end := ReadLines(StartReading(m0), SavedLines(m, order));
    assert end.st.m.tables.vocab == m.tables.vocab;
    assert CleanTokens(m);
    MergesClean(m, order, mid, |end.st.m.merges|);
  }

  lemma MergesClean(m: Model, order: seq<Str>, mid: Outcome, count: nat)
    requires Consistent(m) && Storable(m) && CleanTokens(m) && IsOrder(m.tables.vocab, order)
    requires mid == ReadLines(AfterHeader(m), VocabLines(m.tables.vocab, order)) && mid.Continue?
    requires count == |m.merges| && count == |mid.st.m.merges| + CleanCount(m.merges)
    ensures CleanMerges(m)
  {
    hide ReadLines;
    AllTokensRead(m, order);
    CleanCountFull(m.merges);
  }

  // ---------------------------------------------------------------- the file

  predicate AllNoLineFeed(lines: seq<Str>) {
    forall i | 0 <= i < |lines| :: NoLineFeed(lines[i])
  }

  lemma VocabLinesHaveNoLineFeed(vocab: map<Str, int>, order: seq<Str>)
    requires forall i | 0 <= i < |order| :: order[i] in vocab
    ensures AllNoLineFeed(VocabLines(vocab, order))
  {
    hide NoLineFeed;
    forall i | 0 <= i < |order| ensures NoLineFeed(VocabLine(vocab, order[i])) {
      FieldsHaveNoLineFeed(order[i], vocab[order[i]], []);
    }
  }

  lemma MergeLinesHaveNoLineFeed(merges: seq<Pair>)
    ensures AllNoLineFeed(MergeLines(merges))
  {
    hide NoLineFeed;
    forall i | 0 <= i < |merges| ensures NoLineFeed(MergeLine(merges[i])) {
      FieldsHaveNoLineFeed(merges[i].0, 0, merges[i].1);
    }
  }

  lemma SavedLinesHaveNoLineFeed(m: Model, order: seq<Str>)
    requires forall i | 0 <= i < |order| :: order[i] in m.tables.vocab
    ensures AllNoLineFeed(SavedLines(m, order))
  {
    HeaderHasNoLineFeed(m);
    VocabLinesHaveNoLineFeed(m.tables.vocab, order);
    MergeLinesHaveNoLineFeed(m.merges);
    MergeHeaderHasNoLineFeed(m);
    hide Header, NoLineFeed, VocabLines, MergeLines;
  }

  lemma FieldsHaveNoLineFeed(t: Str, n: int, u: Str)
    ensures NoLineFeed(Escape(t) + [TAB] + Printed(n))
    ensures NoLineFeed(Escape(t) + [TAB] + Escape(u))
  {
    EscapeHasNoSeparator(t);
    EscapeHasNoSeparator(u);
    PrintedHasNoLineFeed(n);
    hide Escape, Printed;
  }

  lemma MergeHeaderHasNoLineFeed(m: Model)
    ensures NoLineFeed(MergeHeader(m))
  {
  }

  lemma PrintedHasNoLineFeed(n: int)
    ensures NoLineFeed(Printed(n))
  {
  }

  lemma PlainTextHasNoLineFeed(s: string)
    requires forall i | 0 <= i < |s| :: ' ' <= s[i] <= 'z'
    ensures NoLineFeed(Text(s))
  {
  }

  lemma HeaderHasNoLineFeed(m: Model)
    ensures AllNoLineFeed(Header(m))
  {
    OpeningHasNoLineFeed(m);
    IdLinesHaveNoLineFeed(m);
    HeaderSplit(m);
    hide Header, NoLineFeed;
  }

  lemma OpeningHasNoLineFeed(m: Model)
    ensures AllNoLineFeed(Header(m)[..5])
  {
    hide Text, Printed, Header;
    PlainTextHasNoLineFeed("# BPE Tokenizer Vocabulary v");
    PlainTextHasNoLineFeed("2.0");
    PlainTextHasNoLineFeed("UNICODE");
    PlainTextHasNoLineFeed("ASCII");
    PlainTextHasNoLineFeed("CASED");
    PlainTextHasNoLineFeed("LOWERCASE");
    Keywords();
    PrintedHasNoLineFeed(|m.tables.vocab|);
    HeaderSplit(m);
  }

  lemma IdLinesHaveNoLineFeed(m: Model)
    ensures AllNoLineFeed(Header(m)[5..])
  {
    hide Text, Printed, Header;
    PlainTextHasNoLineFeed("pad_token_id");
    PlainTextHasNoLineFeed("unk_token_id");
    PlainTextHasNoLineFeed("bos_token_id");
    PlainTextHasNoLineFeed("eos_token_id");
    Keywords();
    PrintedHasNoLineFeed(m.pad);
    PrintedHasNoLineFeed(m.unk);
    PrintedHasNoLineFeed(m.bos);
    PrintedHasNoLineFeed(m.eos);
    HeaderSplit(m);
  }

  /**
   * Save then load restores mode, normalization, both tables, the special tokens and ids and the merge order
   * exactly when no token and no first half of a rule starts with `#` or with one of the four header keywords.
   */
  lemma SaveThenLoad(m0: Model, m: Model, order: seq<Str>)
    requires Consistent(m) && Storable(m) && IsOrder(m.tables.vocab, order)
    ensures Clean(m) <==> Load(m0, SavedText(m, order)).Continue? && Load(m0, SavedText(m, order)).st.m == m
  {
    SavedLinesHaveNoLineFeed(m, order);
    LinesOfUnlines(SavedLines(m, order));
    hide SavedLines, Clean, Consistent, Storable, ReadLines, Finish;
    if Clean(m) {
      LoadRestores(m0, m, order);
    }
    if Load(m0, SavedText(m, order)).Continue? && Load(m0, SavedText(m, order)).st.m == m {
      RestoredMeansClean(m0, m, order);
    }
  }

  /** A built tokenizer whose ids fit an `int` meets the two other hypotheses, so only the clean lines decide. */
  lemma BuiltSaveThenLoad(m0: Model, m: Model, order: seq<Str>, texts: seq<Str>, vocabSize: int, threshold: int)
    requires BuiltModel(m, texts, vocabSize, threshold) && vocabSize <= 0x8000_0000
    requires IsOrder(m.tables.vocab, order)
    ensures Clean(m) <==> Load(m0, SavedText(m, order)).Continue? && Load(m0, SavedText(m, order)).st.m == m
  {
    hide BuiltWith;
    BuiltConsistent(m, texts, vocabSize, threshold);
    var base :| BuiltWith(m.tables, m.merges, m.mode, m.norm, texts, vocabSize, threshold, base);
    BuiltStorable(m, texts, vocabSize, threshold, base);
    hide Consistent, Storable, Clean, Load, SavedText, IsOrder;
    SaveThenLoad(m0, m, order);
  }

  lemma BuiltStorable(m: Model, texts: seq<Str>, vocabSize: int, threshold: int, base: seq<Str>)
    requires BuiltWith(m.tables, m.merges, m.mode, m.norm, texts, vocabSize, threshold, base)
    requires vocabSize <= 0x8000_0000
    ensures Storable(m)
  {
    BuiltTable(m.tables, m.merges, m.mode, m.norm, texts, vocabSize, threshold, base);
    BuiltMergesProper(m, texts, vocabSize, threshold, base);
    hide BuiltWith, BuiltTokens;
    TableFits(m.tables, BuiltTokens(base, m.merges));
  }

  lemma TableFits(t: Tables, tokens: seq<Str>)
    requires IsTable(t, tokens) && |tokens| <= 0x8000_0000
    ensures forall x | x in t.vocab :: FitsInt(t.vocab[x])
  {
  }

  lemma LearnedProper(mode: Mode, words: seq<Word>, n: nat)
    requires UnitWords(mode, words)
    ensures forall k | 0 <= k < |Learn(words, n).merges| :: Proper(Learn(words, n).merges[k])
  {
    hide Learn, UnitWords;
    LearnedMergesDistinct(mode, words, n);
  }

  lemma BuiltMergesProper(m: Model, texts: seq<Str>, vocabSize: int, threshold: int, base: seq<Str>)
    requires BuiltWith(m.tables, m.merges, m.mode, m.norm, texts, vocabSize, threshold, base)
    ensures forall k | 0 <= k < |m.merges| :: Proper(m.merges[k])
  {
    var words, n := CorpusWords(m.mode, m.norm, texts), Max(0, vocabSize - 4 - |base|);
    hide CorpusWords, Learn, BaseChoice, AdmitBase, AdmitMerges, Proper;
    CorpusWordsGood(m.mode, m.norm, texts);
    assert UnitWords(m.mode, words);
    LearnedProper(m.mode, words, n);
  }

  /** A vocabulary that holds the unit `#` never survives the file: its line is skipped as a comment. */
  lemma HashUnitIsLost(m0: Model, m: Model, order: seq<Str>)
    requires Consistent(m) && Storable(m) && IsOrder(m.tables.vocab, order)
    requires [HASH] in m.tables.vocab
    ensures !(Load(m0, SavedText(m, order)).Continue? && Load(m0, SavedText(m, order)).st.m == m)
  {
    hide Consistent, Storable, Load, SavedText, IsOrder;
    SaveThenLoad(m0, m, order);
    assert ReadsAsHeader([HASH]);
  }
}
