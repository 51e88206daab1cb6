/** What a vocabulary file means, line by line: which files loading accepts, and what it takes from each. */
module LoadLaws {
  import opened Bytes
  import opened Units
  import opened Merging
  import opened PreTokenizing
  import opened Results
  import opened Vocabulary
  import opened Encoding
  import opened Escaping
  import opened VocabFile

  // ---------------------------------------------------------------- one line

  /** The section a line opens, or the one before. */
  function SectionAfter(before: Section, line: Str): Section {
    if line == Text("SPECIAL_TOKENS") then InSpecials
    else if line == Text("VOCAB") then InVocab
    else if Text("BPE_MERGES") <= line then InMerges
    else before
  }

  /** A line that belongs to its section: no comment, no header and no opening of a section. */
  predicate IsField(line: Str) {
    && line != [] && line[0] as int != '#' as int
    && !(Text("NORMALIZATION") <= line) && !(Text("TOKENIZER_MODE") <= line) && !(Text("VOCAB_SIZE") <= line)
    && line != Text("SPECIAL_TOKENS") && line != Text("VOCAB") && !(Text("BPE_MERGES") <= line)
  }

  /** What stands before and behind the first `c`. */
  function Front(line: Str, c: Byte): Str {
    line[..Find(line, c)]
  }

  function Back(line: Str, c: Byte): Str
    requires c in line
  {
    line[Find(line, c) + 1..]
  }

  /** Whether a line can be read in the section. */
  predicate LineOk(section: Section, line: Str) {
    && (Text("# BPE Tokenizer Vocabulary v") <= line ==>
          match Stoi(line[|Text("# BPE Tokenizer Vocabulary v")|..])
          case Int(major) => major <= 2
          case _ => true)
    && (Text("NORMALIZATION") <= line ==>
          |line| > 14 && (line[14..] == Text("CASED") || line[14..] == Text("LOWERCASE")))
    && (Text("TOKENIZER_MODE") <= line ==> |line| >= 15)
    && (IsField(line) ==> FieldOk(section, line))
  }

  /** What a line that cannot be read throws. */
  function ErrorOf(line: Str): Error {
    if Text("TOKENIZER_MODE") <= line then Results.OutOfRange else VocabularyFileError
  }

  predicate FieldOk(section: Section, line: Str) {
    match section
    case NoSection => false
    case InSpecials => SPACE in line && Stoi(Back(line, SPACE)).Int?
    case InVocab => TAB in line && Stoi(Back(line, TAB)).Int? && Stoi(Back(line, TAB)).n >= 0
    case InMerges => TAB in line && Front(line, TAB) != [] && Back(line, TAB) != []
  }

  function EntryOf(line: Str): (Str, int)
    requires FieldOk(InVocab, line)
  {
    (Unescape(Front(line, TAB)), Stoi(Back(line, TAB)).n)
  }

  function RuleOf(line: Str): Pair
    requires FieldOk(InMerges, line)
  {
    (Unescape(Front(line, TAB)), Unescape(Back(line, TAB)))
  }

  // ---------------------------------------------------------------- many lines

  /** The section that line `n` stands in. */
  function SectionAt(lines: seq<Str>, n: nat): Section
    requires n <= |lines|
  {
    if n == 0 then NoSection else SectionAfter(SectionAt(lines, n - 1), lines[n - 1])
  }

  /** Whether line `i` is a field of the section. */
  predicate FieldOf(lines: seq<Str>, i: nat, section: Section)
    requires i < |lines|
  {
    IsField(lines[i]) && SectionAt(lines, i) == section && FieldOk(section, lines[i])
  }

  predicate AllOk(lines: seq<Str>, n: nat)
    requires n <= |lines|
  {
    forall i | 0 <= i < n :: LineOk(SectionAt(lines, i), lines[i])
  }

  /** The tokens with their ids, in the order of their lines. */
  function Entries(lines: seq<Str>, n: nat): seq<(Str, int)>
    requires n <= |lines|
  {
    if n == 0 then []
    else Entries(lines, n - 1) + (if FieldOf(lines, n - 1, InVocab) then [EntryOf(lines[n - 1])] else [])
  }

  /** The rules, in the order of their lines. */
  function Rules(lines: seq<Str>, n: nat): seq<Pair>
    requires n <= |lines|
  {
    if n == 0 then []
    else Rules(lines, n - 1) + (if FieldOf(lines, n - 1, InMerges) then [RuleOf(lines[n - 1])] else [])
  }

  /** What the last line for the key says; `kept` if there is none. */
  function IdFor(lines: seq<Str>, n: nat, key: Str, kept: int): int
    requires n <= |lines|
  {
    if n == 0 then kept
    else if FieldOf(lines, n - 1, InSpecials) && Front(lines[n - 1], SPACE) == key
    then Stoi(Back(lines[n - 1], SPACE)).n
    else IdFor(lines, n - 1, key, kept)
  }

  /** The four ids as line `n` finds them. */
  function IdsAt(m0: Model, lines: seq<Str>, n: nat): set<int>
    requires n <= |lines|
  {
    {IdFor(lines, n, Text("pad_token_id"), m0.pad), IdFor(lines, n, Text("unk_token_id"), m0.unk),
     IdFor(lines, n, Text("bos_token_id"), m0.bos), IdFor(lines, n, Text("eos_token_id"), m0.eos)}
  }

  /** The tokens entered under one of the four ids of the time. */
  function SpecialEntries(m0: Model, lines: seq<Str>, n: nat): set<Str>
    requires n <= |lines|
  {
    if n == 0 then {}
    else if FieldOf(lines, n - 1, InVocab) && EntryOf(lines[n - 1]).1 in IdsAt(m0, lines, n - 1)
    then SpecialEntries(m0, lines, n - 1) + {EntryOf(lines[n - 1]).0}
    else SpecialEntries(m0, lines, n - 1)
  }

  /** What the last NORMALIZATION line names; LOWERCASE if there is none. */
  function NormalizationOf(lines: seq<Str>, n: nat): Normalization
    requires n <= |lines|
  {
    if n == 0 then LOWERCASE
    else if Text("NORMALIZATION") <= lines[n - 1] && |lines[n - 1]| > 14 then
      (if lines[n - 1][14..] == Text("CASED") then CASED else LOWERCASE)
    else NormalizationOf(lines, n - 1)
  }

  /** What the last TOKENIZER_MODE line names; ASCII if there is none, or if it names anything but UNICODE. */
  function ModeOf(lines: seq<Str>, n: nat): Mode
    requires n <= |lines|
  {
    if n == 0 then ASCII
    else if Text("TOKENIZER_MODE") <= lines[n - 1] && |lines[n - 1]| >= 15 then
      (if lines[n - 1][15..] == Text("UNICODE") then UNICODE else ASCII)
    else ModeOf(lines, n - 1)
  }

  /** The tables after the entries, later ones over earlier ones. */
  function Entered(entries: seq<(Str, int)>): Tables {
    if entries == [] then Tables(map[], map[])
    else
      var last := entries[|entries| - 1];
      Entered(entries[..|entries| - 1]).Enter(last.0, last.1)
  }

  /** The fields once the first `n` lines have been read into `m0`. */
  ghost predicate ReadSoFar(m0: Model, lines: seq<Str>, n: nat, st: Reading)
    requires n <= |lines|
  {
    HeaderSoFar(lines, n, st) && FieldsSoFar(m0, lines, n, st)
  }

  ghost predicate HeaderSoFar(lines: seq<Str>, n: nat, st: Reading)
    requires n <= |lines|
  {
    && st.section == SectionAt(lines, n)
    && st.m.norm == NormalizationOf(lines, n) && st.m.mode == ModeOf(lines, n)
  }

  ghost predicate FieldsSoFar(m0: Model, lines: seq<Str>, n: nat, st: Reading)
    requires n <= |lines|
  {
    && st.m.tables == Entered(Entries(lines, n)) && st.m.merges == Rules(lines, n)
    && st.m.pad == IdFor(lines, n, Text("pad_token_id"), m0.pad)
    && st.m.unk == IdFor(lines, n, Text("unk_token_id"), m0.unk)
    && st.m.bos == IdFor(lines, n, Text("bos_token_id"), m0.bos)
    && st.m.eos == IdFor(lines, n, Text("eos_token_id"), m0.eos)
    && st.m.specials == SpecialEntries(m0, lines, n)
  }

  // ------------------------------------------------------------- the line laws

  lemma FieldIsPlain(line: Str)
    ensures IsField(line) <==> !Headerish(line)
  {
    hide Text;
    assert HASH as int == '#' as int;
  }

  lemma FindIn(s: Str, c: Byte)
    ensures Find(s, c) < |s| <==> c in s
  {
  }

  lemma UnescapeEmpty(s: Str)
    ensures Unescape(s) == [] <==> s == []
  {
  }

  lemma FieldRead(st: Reading, line: Str)
    ensures ReadField(st, line).Continue? <==> FieldOk(st.section, line)
    ensures !FieldOk(st.section, line) ==> ReadField(st, line) == Throw(st, VocabularyFileError)
  {
    FindIn(line, SPACE);
    FindIn(line, TAB);
    hide Find, Stoi, Text, Unescape;
    if TAB in line {
      UnescapeEmpty(Front(line, TAB));
      UnescapeEmpty(Back(line, TAB));
    }
  }

  function IdAfter(before: int, section: Section, line: Str, key: Str): int {
    if IsField(line) && section.InSpecials? && FieldOk(InSpecials, line) && Front(line, SPACE) == key
    then Stoi(Back(line, SPACE)).n else before
  }

  function SpecialsAfter(st: Reading, line: Str): set<Str> {
    if IsField(line) && st.section.InVocab? && FieldOk(InVocab, line)
       && EntryOf(line).1 in {st.m.pad, st.m.unk, st.m.bos, st.m.eos}
    then st.m.specials + {EntryOf(line).0} else st.m.specials
  }

  /** What a readable line does to the fields. */
  ghost predicate Effect(st: Reading, line: Str, next: Reading) {
    OnHeader(st, line, next) && OnFields(st, line, next)
  }

  ghost predicate OnHeader(st: Reading, line: Str, next: Reading) {
    && next.section == SectionAfter(st.section, line)
    && next.m.norm == (if Text("NORMALIZATION") <= line && |line| > 14
                       then (if line[14..] == Text("CASED") then CASED else LOWERCASE) else st.m.norm)
    && next.m.mode == (if Text("TOKENIZER_MODE") <= line && |line| >= 15
                       then (if line[15..] == Text("UNICODE") then UNICODE else ASCII) else st.m.mode)
  }

  ghost predicate OnFields(st: Reading, line: Str, next: Reading) {
    && next.m.tables == (if IsField(line) && st.section.InVocab? && FieldOk(InVocab, line)
                         then st.m.tables.Enter(EntryOf(line).0, EntryOf(line).1) else st.m.tables)
    && next.m.merges == (if IsField(line) && st.section.InMerges? && FieldOk(InMerges, line)
                         then st.m.merges + [RuleOf(line)] else st.m.merges)
    && next.m.pad == IdAfter(st.m.pad, st.section, line, Text("pad_token_id"))
    && next.m.unk == IdAfter(st.m.unk, st.section, line, Text("unk_token_id"))
    && next.m.bos == IdAfter(st.m.bos, st.section, line, Text("bos_token_id"))
    && next.m.eos == IdAfter(st.m.eos, st.section, line, Text("eos_token_id"))
    && next.m.specials == SpecialsAfter(st, line)
  }

  lemma KeysDiffer()
    ensures Text("pad_token_id") != Text("unk_token_id") && Text("pad_token_id") != Text("bos_token_id")
    ensures Text("pad_token_id") != Text("eos_token_id") && Text("unk_token_id") != Text("bos_token_id")
    ensures Text("unk_token_id") != Text("eos_token_id") && Text("bos_token_id") != Text("eos_token_id")
  {
    IdKeys();
  }

  lemma SpecialRead(st: Reading, line: Str)
    requires FieldOk(InSpecials, line)
    ensures var n, key := Stoi(Back(line, SPACE)).n, Front(line, SPACE);
      var m := st.m;
      ReadSpecial(st, line) == Continue(st.(m := m.(
        pad := if key == Text("pad_token_id") then n else m.pad,
        unk := if key == Text("unk_token_id") then n else m.unk,
        bos := if key == Text("bos_token_id") then n else m.bos,
        eos := if key == Text("eos_token_id") then n else m.eos)))
  {
    KeysDiffer();
    FindIn(line, SPACE);
    hide Text, Find, Stoi;
  }

  lemma TokenRead(st: Reading, line: Str)
    requires FieldOk(InVocab, line)
    ensures var (token, id) := EntryOf(line);
      var m := st.m;
      ReadToken(st, line) == Continue(st.(m := m.(
        tables := m.tables.Enter(token, id),
        specials := if id in {m.pad, m.unk, m.bos, m.eos} then m.specials + {token} else m.specials)))
  {
    FindIn(line, TAB);
    hide Text, Find, Stoi, Unescape;
  }

  lemma RuleRead(st: Reading, line: Str)
    requires FieldOk(InMerges, line)
    ensures ReadMerge(st, line) == Continue(st.(m := st.m.(merges := st.m.merges + [RuleOf(line)])))
  {
    FindIn(line, TAB);
    hide Text, Find, Stoi, Unescape;
    UnescapeEmpty(Front(line, TAB));
    UnescapeEmpty(Back(line, TAB));
  }

  /** A field leaves what headers set. */
  lemma FieldOnHeader(st: Reading, line: Str, next: Reading)
    requires IsField(line) && next.section == st.section && next.m.norm == st.m.norm && next.m.mode == st.m.mode
    ensures OnHeader(st, line, next)
  {
    hide Text;
  }

  lemma SpecialEffect(st: Reading, line: Str)
    requires IsField(line) && st.section.InSpecials? && FieldOk(InSpecials, line)
    ensures Effect(st, line, ReadSpecial(st, line).st)
  {
    SpecialRead(st, line);
    FieldOnHeader(st, line, ReadSpecial(st, line).st);
    hide OnHeader;
    hide Text, Headerish, ReadSpecial, FieldOk, EntryOf, RuleOf, Front, Back;
  }

  lemma TokenEffect(st: Reading, line: Str)
    requires IsField(line) && st.section.InVocab? && FieldOk(InVocab, line)
    ensures Effect(st, line, ReadToken(st, line).st)
  {
    TokenRead(st, line);
    FieldOnHeader(st, line, ReadToken(st, line).st);
    hide OnHeader;
    hide Text, Headerish, ReadToken, FieldOk, EntryOf, RuleOf, Front, Back;
  }

  lemma RuleEffect(st: Reading, line: Str)
    requires IsField(line) && st.section.InMerges? && FieldOk(InMerges, line)
    ensures Effect(st, line, ReadMerge(st, line).st)
  {
    RuleRead(st, line);
    FieldOnHeader(st, line, ReadMerge(st, line).st);
    hide OnHeader;
    hide Text, Headerish, ReadMerge, FieldOk, EntryOf, RuleOf, Front, Back;
  }

  /** A field moves only what its section holds. */
  lemma FieldEffect(st: Reading, line: Str)
    requires IsField(line) && FieldOk(st.section, line)
    ensures ReadLine(st, line).Continue? && Effect(st, line, ReadLine(st, line).st)
  {
    FieldIsPlain(line);
    ReadPlainLine(st, line);
    FieldRead(st, line);
    assert !st.section.NoSection?;
    hide Text, ReadLine, Headerish, ReadSpecial, ReadToken, ReadMerge, FieldOk, IsField, Effect;
    match st.section
    case InSpecials => SpecialEffect(st, line);
    case InVocab => TokenEffect(st, line);
    case InMerges => RuleEffect(st, line);
  }

  /** The keywords differ in their first bytes, but for the two that begin with `VOCAB`. */
  lemma HeaderEffect(st: Reading, line: Str)
    requires !IsField(line) && LineOk(st.section, line)
    ensures ReadLine(st, line).Continue? && Effect(st, line, ReadLine(st, line).st)
  {
    FirstBytes();
    hide Text, Stoi, FieldOk;
  }

  lemma BadLine(st: Reading, line: Str)
    requires !LineOk(st.section, line)
    ensures ReadLine(st, line) == Throw(st, ErrorOf(line))
  {
    FirstBytes();
    if IsField(line) {
      FieldIsPlain(line);
      ReadPlainLine(st, line);
      FieldRead(st, line);
      hide ReadLine, Headerish;
    }
    hide Text, Stoi, FieldOk, ReadField;
  }

  lemma LineRead(st: Reading, line: Str)
    ensures if LineOk(st.section, line) then ReadLine(st, line).Continue? && Effect(st, line, ReadLine(st, line).st)
            else ReadLine(st, line) == Throw(st, ErrorOf(line))
  {
    hide Text, ReadLine, Effect, IsField;
    if !LineOk(st.section, line) {
      BadLine(st, line);
    } else if IsField(line) {
      FieldEffect(st, line);
    } else {
      HeaderEffect(st, line);
    }
  }

  // ------------------------------------------------------------ the whole file

  lemma IdForNext(lines: seq<Str>, n: nat, key: Str, kept: int)
    requires n < |lines|
    ensures IdFor(lines, n + 1, key, kept) == IdAfter(IdFor(lines, n, key, kept), SectionAt(lines, n), lines[n], key)
  {
    hide Stoi, IsField, FieldOk, SectionAt, Front, Back;
  }

  lemma EntriesNext(lines: seq<Str>, n: nat)
    requires n < |lines|
    ensures Entered(Entries(lines, n + 1)) ==
            if FieldOf(lines, n, InVocab) then Entered(Entries(lines, n)).Enter(EntryOf(lines[n]).0, EntryOf(lines[n]).1)
            else Entered(Entries(lines, n))
    ensures Rules(lines, n + 1) == if FieldOf(lines, n, InMerges) then Rules(lines, n) + [RuleOf(lines[n])] else Rules(lines, n)
  {
    hide Stoi, IsField, FieldOk, SectionAt, Front, Back, EntryOf, RuleOf;
    if FieldOf(lines, n, InVocab) {
      EnteredLast(Entries(lines, n), EntryOf(lines[n]));
    }
    assert Entries(lines, n) + [] == Entries(lines, n) && Rules(lines, n) + [] == Rules(lines, n);
    hide Entered;
  }

  lemma OnHeaderSoFar(lines: seq<Str>, n: nat, st: Reading, next: Reading)
    requires n < |lines| && HeaderSoFar(lines, n, st) && OnHeader(st, lines[n], next)
    ensures HeaderSoFar(lines, n + 1, next)
  {
    hide Text, SectionAfter;
  }

  lemma OnFieldsSoFar(m0: Model, lines: seq<Str>, n: nat, st: Reading, next: Reading)
    requires n < |lines| && st.section == SectionAt(lines, n) && FieldsSoFar(m0, lines, n, st)
    requires OnFields(st, lines[n], next)
    ensures FieldsSoFar(m0, lines, n + 1, next)
  {
    IdForNext(lines, n, Text("pad_token_id"), m0.pad);
    IdForNext(lines, n, Text("unk_token_id"), m0.unk);
    IdForNext(lines, n, Text("bos_token_id"), m0.bos);
    IdForNext(lines, n, Text("eos_token_id"), m0.eos);
    EntriesNext(lines, n);
    SpecialsNext(m0, lines, n, st);
    hide Text, Stoi, IsField, FieldOk, EntryOf, RuleOf, Front, Back, IdFor, IdAfter;
    hide Entries, Entered, Rules, SpecialEntries, SpecialsAfter, SectionAt;
  }

  lemma SpecialsNext(m0: Model, lines: seq<Str>, n: nat, st: Reading)
    requires n < |lines| && st.section == SectionAt(lines, n) && FieldsSoFar(m0, lines, n, st)
    ensures SpecialEntries(m0, lines, n + 1) == SpecialsAfter(st, lines[n])
  {
    hide Text, Stoi, IsField, FieldOk, EntryOf, RuleOf, Front, Back, IdFor, Entries, Entered, Rules, SectionAt;
  }

  lemma EffectSoFar(m0: Model, lines: seq<Str>, n: nat, st: Reading, next: Reading)
    requires n < |lines| && ReadSoFar(m0, lines, n, st) && Effect(st, lines[n], next)
    ensures ReadSoFar(m0, lines, n + 1, next)
  {
    hide OnHeader, OnFields, FieldsSoFar;
    OnHeaderSoFar(lines, n, st, next);
    OnFieldsSoFar(m0, lines, n, st, next);
    hide HeaderSoFar;
  }

  lemma EnteredLast(entries: seq<(Str, int)>, e: (Str, int))
    ensures Entered(entries + [e]) == Entered(entries).Enter(e.0, e.1)
  {
    assert (entries + [e])[..|entries|] == entries;
  }

  /** As long as every line can be read, each field is what the lines so far say. */
  lemma {:induction false} ReadsSoFar(m0: Model, lines: seq<Str>, n: nat)
    requires n <= |lines| && AllOk(lines, n)
    ensures ReadLines(StartReading(m0), lines[..n]).Continue?
    ensures ReadSoFar(m0, lines, n, ReadLines(StartReading(m0), lines[..n]).st)
  {
    if n == 0 {
      assert lines[..0] == [];
    } else {
      hide ReadLine, ReadLines, ReadSoFar, Effect, LineOk, SectionAt, StartReading;
      ReadsSoFar(m0, lines, n - 1);
      ReadsOneMore(m0, lines, n - 1);
    }
  }

  /** One more line, from the fields the lines before it give. */
  lemma ReadsOneMore(m0: Model, lines: seq<Str>, n: nat)
    requires n < |lines| && ReadLines(StartReading(m0), lines[..n]).Continue?
    requires ReadSoFar(m0, lines, n, ReadLines(StartReading(m0), lines[..n]).st)
    ensures var o := ReadLines(StartReading(m0), lines[..n + 1]);
      if LineOk(SectionAt(lines, n), lines[n]) then o.Continue? && ReadSoFar(m0, lines, n + 1, o.st)
      else o == Throw(ReadLines(StartReading(m0), lines[..n]).st, ErrorOf(lines[n]))
  {
    var start := StartReading(m0);
    var st := ReadLines(start, lines[..n]).st;
    assert st.section == SectionAt(lines, n);
    assert lines[..n + 1] == lines[..n] + [lines[n]];
    hide ReadLine, ReadLines, ReadSoFar, Effect, LineOk, SectionAt, StartReading;
    ReadLinesAppend(start, lines[..n], [lines[n]]);
    ReadOneLine(st, lines[n]);
    LineRead(st, lines[n]);
    if LineOk(st.section, lines[n]) {
      EffectSoFar(m0, lines, n, st, ReadLine(st, lines[n]).st);
    }
  }

  /** The first line that cannot be read ends it, with the fields of the lines before. */
  lemma ReadsUntil(m0: Model, lines: seq<Str>, i: nat)
    requires i < |lines| && AllOk(lines, i) && !LineOk(SectionAt(lines, i), lines[i])
    ensures ReadLines(StartReading(m0), lines[..i]).Continue?
    ensures ReadLines(StartReading(m0), lines) ==
            Throw(ReadLines(StartReading(m0), lines[..i]).st, ErrorOf(lines[i]))
    ensures ReadSoFar(m0, lines, i, ReadLines(StartReading(m0), lines[..i]).st)
  {
    hide ReadLine, ReadLines, ReadSoFar, LineOk, SectionAt, StartReading;
    ReadsSoFar(m0, lines, i);
    hide AllOk;
    ReadsOneMore(m0, lines, i);
    assert lines == lines[..i + 1] + lines[i + 1..];
    ReadLinesAppend(StartReading(m0), lines[..i + 1], lines[i + 1..]);
  }

  /** Some line is the first that cannot be read. */
  lemma {:induction false} FirstBad(lines: seq<Str>, n: nat) returns (i: nat)
    requires n <= |lines| && !AllOk(lines, n)
    ensures i < n && AllOk(lines, i) && !LineOk(SectionAt(lines, i), lines[i])
  {
    hide LineOk, SectionAt;
    if AllOk(lines, n - 1) {
      i := n - 1;
    } else {
      i := FirstBad(lines, n - 1);
    }
  }

  /** A token is in the tables exactly if some entry names it, with the id of the last that does; so for ids. */
  lemma {:induction false} EnteredMeans(entries: seq<(Str, int)>, k: nat)
    requires k < |entries|
    ensures (forall j | k < j < |entries| :: entries[j].0 != entries[k].0) ==>
              entries[k].0 in Entered(entries).vocab && Entered(entries).vocab[entries[k].0] == entries[k].1
    ensures (forall j | k < j < |entries| :: entries[j].1 != entries[k].1) ==>
              entries[k].1 in Entered(entries).inverse && Entered(entries).inverse[entries[k].1] == entries[k].0
  {
    var n := |entries| - 1;
    if k < n {
      EnteredMeans(entries[..n], k);
    }
  }

  lemma {:induction false} EnteredOnly(entries: seq<(Str, int)>)
    ensures forall t | t in Entered(entries).vocab :: exists k | 0 <= k < |entries| :: entries[k].0 == t
    ensures forall id | id in Entered(entries).inverse :: exists k | 0 <= k < |entries| :: entries[k].1 == id
    ensures forall k | 0 <= k < |entries| :: entries[k].0 in Entered(entries).vocab
  {
    if entries == [] {
    } else {
      var n := |entries| - 1;
      EnteredOnly(entries[..n]);
      assert entries == entries[..n] + [entries[n]];
    }
  }

  predicate Names(entries: seq<(Str, int)>, token: Str) {
    exists k | 0 <= k < |entries| :: entries[k].0 == token
  }

  /** A file is loaded exactly if every line can be read in its section and some entry names each special token. */
  lemma LoadAccepts(m0: Model, text: Str)
    ensures var lines := Lines(text);
      var entries := Entries(lines, |lines|);
      Load(m0, text).Continue? <==>
        && AllOk(lines, |lines|)
        && Names(entries, Text("<pad>")) && Names(entries, Text("<unk>"))
        && Names(entries, Text("<bos>")) && Names(entries, Text("<eos>"))
  {
    var lines := Lines(text);
    var entries := Entries(lines, |lines|);
    hide Lines, Entries, LineOk, SectionAt, ReadLines, StartReading, Text;
    if AllOk(lines, |lines|) {
      ReadsSoFar(m0, lines, |lines|);
      assert lines[..|lines|] == lines;
      EnteredOnly(entries);
      SpecialTexts();
      hide Entered, AllOk;
    } else {
      var i := FirstBad(lines, |lines|);
      ReadsUntil(m0, lines, i);
    }
  }

  lemma SpecialTexts()
    ensures PAD == Text("<pad>") && UNK == Text("<unk>") && BOS == Text("<bos>") && EOS == Text("<eos>")
  {
  }

  lemma FinishMeans(st: Reading)
    requires Finish(st).Continue?
    ensures var m := st.m;
      Finish(st).st.m == m.(
        specials := m.specials + {Text("<pad>"), Text("<unk>"), Text("<bos>"), Text("<eos>")},
        tables := m.tables.(inverse :=
          m.tables.inverse[m.pad := Text("<pad>")][m.unk := Text("<unk>")][m.bos := Text("<bos>")][m.eos := Text("<eos>")]))
  {
    SpecialTexts();
    hide Text;
  }

  /** What a loaded tokenizer takes from each line of the file, and what it keeps. */
  lemma LoadReads(m0: Model, text: Str)
    requires Load(m0, text).Continue?
    ensures var lines := Lines(text);
      var n, m := |lines|, Load(m0, text).st.m;
      var tables := Entered(Entries(lines, n));
      && m.norm == NormalizationOf(lines, n) && m.mode == ModeOf(lines, n)
      && m.merges == Rules(lines, n)
      && m.pad == IdFor(lines, n, Text("pad_token_id"), m0.pad)
      && m.unk == IdFor(lines, n, Text("unk_token_id"), m0.unk)
      && m.bos == IdFor(lines, n, Text("bos_token_id"), m0.bos)
      && m.eos == IdFor(lines, n, Text("eos_token_id"), m0.eos)
      && m.tables.vocab == tables.vocab
      && m.tables.inverse ==
           tables.inverse[m.pad := Text("<pad>")][m.unk := Text("<unk>")][m.bos := Text("<bos>")][m.eos := Text("<eos>")]
      && m.specials ==
           SpecialEntries(m0, lines, n) + {Text("<pad>"), Text("<unk>"), Text("<bos>"), Text("<eos>")}
  {
    var lines := Lines(text);
    LoadAccepts(m0, text);
    ReadsSoFar(m0, lines, |lines|);
    assert lines[..|lines|] == lines;
    FinishMeans(ReadLines(StartReading(m0), lines).st);
    hide Finish, Lines, Entries, Rules, LineOk, SectionAt, ReadLines, StartReading, Text, Entered, AllOk;
    hide IdFor, NormalizationOf, ModeOf, SpecialEntries;
  }

  /** A file that cannot be loaded: which error, and the fields it leaves behind. */
  lemma LoadFails(m0: Model, text: Str) returns (i: nat)
    requires Load(m0, text).Throw?
    ensures i <= |Lines(text)| && AllOk(Lines(text), i)
    ensures ReadSoFar(m0, Lines(text), i, Load(m0, text).st)
    ensures i < |Lines(text)| ==> !LineOk(SectionAt(Lines(text), i), Lines(text)[i])
    ensures Load(m0, text).error ==
            if i < |Lines(text)| then ErrorOf(Lines(text)[i]) else VocabularyFileError
  {
    var lines := Lines(text);
    hide Lines, LineOk, SectionAt, ReadLines, StartReading, Text, ReadSoFar;
    if AllOk(lines, |lines|) {
      ReadsSoFar(m0, lines, |lines|);
      assert lines[..|lines|] == lines;
      i := |lines|;
    } else {
      i := FirstBad(lines, |lines|);
      ReadsUntil(m0, lines, i);
    }
  }

  // ------------------------------------------------ normalization and mode

  lemma {:induction false} NoNormalization(lines: seq<Str>, n: nat)
    requires n <= |lines| && forall i | 0 <= i < n :: !(Text("NORMALIZATION") <= lines[i])
    ensures NormalizationOf(lines, n) == LOWERCASE
  {
    hide Text;
    if n == 0 {
    } else {
      NoNormalization(lines, n - 1);
    }
  }

  lemma {:induction false} NoMode(lines: seq<Str>, n: nat)
    requires n <= |lines| && forall i | 0 <= i < n :: !(Text("TOKENIZER_MODE") <= lines[i])
    ensures ModeOf(lines, n) == ASCII
  {
    hide Text;
    if n == 0 {
    } else {
      NoMode(lines, n - 1);
    }
  }

  lemma {:induction false} LastNormalization(lines: seq<Str>, n: nat, i: nat)
    requires n <= |lines| && IsLast(lines, n, "NORMALIZATION", i) && |lines[i]| > 14
    ensures NormalizationOf(lines, n) == if lines[i][14..] == Text("CASED") then CASED else LOWERCASE
  {
    hide Text;
    if i == n - 1 {
    } else {
      LastNormalization(lines, n - 1, i);
    }
  }

  lemma {:induction false} LastMode(lines: seq<Str>, n: nat, i: nat)
    requires n <= |lines| && IsLast(lines, n, "TOKENIZER_MODE", i) && |lines[i]| >= 15
    ensures ModeOf(lines, n) == if lines[i][15..] == Text("UNICODE") then UNICODE else ASCII
  {
    hide Text;
    if i == n - 1 {
    } else {
      LastMode(lines, n - 1, i);
    }
  }

  /**
   * Without a NORMALIZATION line a file is read as LOWERCASE and without a TOKENIZER_MODE line as ASCII, even if an
   * error ends it, and whatever the tokenizer was before.
   */
  lemma HeaderAbsent(m0: Model, text: Str)
    ensures (forall i | 0 <= i < |Lines(text)| :: !(Text("NORMALIZATION") <= Lines(text)[i])) ==>
              Load(m0, text).st.m.norm == LOWERCASE
    ensures (forall i | 0 <= i < |Lines(text)| :: !(Text("TOKENIZER_MODE") <= Lines(text)[i])) ==>
              Load(m0, text).st.m.mode == ASCII
  {
    var lines := Lines(text);
    var n := LinesRead(m0, text);
    hide Load, Text, Lines, NormalizationOf, ModeOf;
    if forall i | 0 <= i < |lines| :: !(Text("NORMALIZATION") <= lines[i]) {
      NoNormalization(lines, n);
    }
    if forall i | 0 <= i < |lines| :: !(Text("TOKENIZER_MODE") <= lines[i]) {
      NoMode(lines, n);
    }
  }

  /** How many lines the fields come from. */
  lemma LinesRead(m0: Model, text: Str) returns (n: nat)
    ensures n <= |Lines(text)|
    ensures Load(m0, text).st.m.norm == NormalizationOf(Lines(text), n)
    ensures Load(m0, text).st.m.mode == ModeOf(Lines(text), n)
  {
    hide Load, Text, Lines, LineOk, SectionAt, NormalizationOf, ModeOf, Entries, Rules, Entered, IdFor, SpecialEntries;
    if Load(m0, text).Continue? {
      LoadReads(m0, text);
      n := |Lines(text)|;
    } else {
      n := LoadFails(m0, text);
    }
  }

  /** In a file that is loaded the last NORMALIZATION line decides, and so does the last TOKENIZER_MODE line. */
  lemma HeaderPresent(m0: Model, text: Str, i: nat)
    requires Load(m0, text).Continue? && i < |Lines(text)|
    ensures var lines, m := Lines(text), Load(m0, text).st.m;
      IsLast(lines, |lines|, "NORMALIZATION", i) ==>
        && |lines[i]| > 14
        && (m.norm == CASED <==> lines[i][14..] == Text("CASED"))
        && (m.norm == LOWERCASE <==> lines[i][14..] == Text("LOWERCASE"))
    ensures var lines, m := Lines(text), Load(m0, text).st.m;
      IsLast(lines, |lines|, "TOKENIZER_MODE", i) ==>
        |lines[i]| >= 15 && (m.mode == UNICODE <==> lines[i][15..] == Text("UNICODE"))
  {
    var lines := Lines(text);
    LoadAccepts(m0, text);
    LoadReads(m0, text);
    assert LineOk(SectionAt(lines, i), lines[i]);
    TwoNames();
    hide Load, Text, Lines, AllOk, SectionAt, IsField;
    if IsLast(lines, |lines|, "NORMALIZATION", i) {
      LastNormalization(lines, |lines|, i);
    }
    if IsLast(lines, |lines|, "TOKENIZER_MODE", i) {
      LastMode(lines, |lines|, i);
    }
  }

  lemma TwoNames()
    ensures Text("CASED") != Text("LOWERCASE")
  {
    assert |Text("CASED")| == 5 && |Text("LOWERCASE")| == 9;
  }

  /** Line `i` is the last of the first `n` that begins with the word. */
  predicate IsLast(lines: seq<Str>, n: nat, word: string, i: int)
    requires n <= |lines|
  {
    0 <= i < n && Text(word) <= lines[i] && forall j | i < j < n :: !(Text(word) <= lines[j])
  }
}
