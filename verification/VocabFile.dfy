/** The vocabulary file: what saving writes, what loading reads, and exactly when loading restores a saved tokenizer. */
module VocabFile {
  import opened Bytes
  import opened Units
  import opened Merging
  import opened PreTokenizing
  import opened Regex
  import opened Results
  import opened Vocabulary
  import opened Encoding
  import opened Escaping

  const VERSION_COMMENT: Str := Text("# BPE Tokenizer Vocabulary v")
  const TOKENIZER_MODE: Str := Text("TOKENIZER_MODE")
  const NORMALIZATION: Str := Text("NORMALIZATION")
  const VOCAB_SIZE: Str := Text("VOCAB_SIZE")
  const SPECIAL_TOKENS: Str := Text("SPECIAL_TOKENS")
  const VOCAB: Str := Text("VOCAB")
  const BPE_MERGES: Str := Text("BPE_MERGES")
  const HASH: Byte := 0x23
  const FORMAT_MAJOR: int := 2

  // ----------------------------------------------------------------- lines

  /** `getline` until the end of the file. */
  function Lines(text: Str): seq<Str>
    decreases |text|
  {
    if text == [] then []
    else
      var n := LineLength(text);
      [text[..n]] + Lines(if n < |text| then text[n + 1..] else [])
  }

  function LineLength(text: Str): (n: nat)
    ensures n <= |text|
  {
    if text == [] || text[0] == LF then 0 else 1 + LineLength(text[1..])
  }

  /** Each line followed by a line feed. */
  function Unlines(lines: seq<Str>): Str {
    if lines == [] then [] else lines[0] + [LF] + Unlines(lines[1..])
  }

  predicate NoLineFeed(s: Str) {
    forall i | 0 <= i < |s| :: s[i] != LF
  }

  lemma {:induction false} LineLengthOf(line: Str, rest: Str)
    requires NoLineFeed(line)
    ensures LineLength(line + [LF] + rest) == |line|
  {
    var text := line + [LF] + rest;
    if line == [] {
    } else {
      LineLengthOf(line[1..], rest);
      assert text[1..] == line[1..] + [LF] + rest;
    }
  }

  lemma {:induction false} LinesOfUnlines(lines: seq<Str>)
    requires forall i | 0 <= i < |lines| :: NoLineFeed(lines[i])
    ensures Lines(Unlines(lines)) == lines
  {
    if lines == [] {
    } else {
      LinesOfUnlines(lines[1..]);
      var text := Unlines(lines);
      LineLengthOf(lines[0], Unlines(lines[1..]));
      var n := |lines[0]|;
      assert text[..n] == lines[0] && text[n + 1..] == Unlines(lines[1..]);
    }
  }

  /** The text with its last line closed. */
  function Closed(text: Str): Str {
    if text == [] || text[|text| - 1] == LF then text else text + [LF]
  }

  lemma ClosedBehind(line: Str, rest: Str)
    ensures Closed(line + [LF] + rest) == line + [LF] + Closed(rest)
  {
    var text := line + [LF] + rest;
    if rest == [] {
      assert text[|text| - 1] == LF;
    } else {
      assert text[|text| - 1] == rest[|rest| - 1];
    }
  }

  lemma LastLine(line: Str)
    requires line != [] && NoLineFeed(line)
    ensures Lines(line) == [line] && Unlines([line]) == line + [LF] && Closed(line) == line + [LF]
  {
    LineLengthMeans(line);
    assert LineLength(line) == |line| && line[..|line|] == line;
    assert [line][1..] == [];
  }

  lemma FirstLine(line: Str, rest: Str)
    requires NoLineFeed(line)
    ensures Lines(line + [LF] + rest) == [line] + Lines(rest)
    ensures Unlines([line] + Lines(rest)) == line + [LF] + Unlines(Lines(rest))
  {
    var text := line + [LF] + rest;
    LineLengthOf(line, rest);
    assert text[..|line|] == line && text[|line| + 1..] == rest;
    hide LineLength;
  }

  /** The lines of any text hold no line feed, and each followed by one they are the text with its last line closed. */
  lemma {:induction false} LinesMean(text: Str)
    ensures forall i | 0 <= i < |Lines(text)| :: NoLineFeed(Lines(text)[i])
    ensures Unlines(Lines(text)) == Closed(text)
    decreases |text|
  {
    if text == [] {
    } else {
      var n := LineLength(text);
      LineLengthMeans(text);
      if n < |text| {
        var line, rest := text[..n], text[n + 1..];
        assert text == line + [LF] + rest;
        hide LineLength, Lines, Unlines, Closed, NoLineFeed;
        LinesMean(rest);
        FirstLine(line, rest);
        ClosedBehind(line, rest);
      } else {
        assert text[..n] == text;
        LastLine(text);
      }
    }
  }

  lemma {:induction false} LineLengthMeans(text: Str)
    ensures var n := LineLength(text); NoLineFeed(text[..n]) && (n < |text| ==> text[n] == LF)
  {
    if text == [] || text[0] == LF {
    } else {
      LineLengthMeans(text[1..]);
      assert text[..LineLength(text)] == [text[0]] + text[1..][..LineLength(text[1..])];
    }
  }

  /** Position of a byte, the length if it does not occur. */
  function Find(s: Str, c: Byte): (n: nat)
    ensures n <= |s|
    ensures n < |s| ==> s[n] == c
    ensures forall i | 0 <= i < n :: s[i] != c
  {
    if s == [] || s[0] == c then 0 else 1 + Find(s[1..], c)
  }

  lemma FindIs(a: Str, c: Byte, b: Str)
    requires forall i | 0 <= i < |a| :: a[i] != c
    ensures Find(a + [c] + b, c) == |a|
  {
    var s := a + [c] + b;
    var n := Find(s, c);
    assert s[|a|] == c;
  }

  // ---------------------------------------------------------------- saving

  function VocabLine(vocab: map<Str, int>, token: Str): Str
    requires token in vocab
  {
    Escape(token) + [TAB] + Printed(vocab[token])
  }

  function MergeLine(p: Pair): Str {
    Escape(p.0) + [TAB] + Escape(p.1)
  }

  function IdLine(key: Str, id: int): Str {
    key + [SPACE] + Printed(id)
  }

  const PAD_KEY: Str := Text("pad_token_id")
  const UNK_KEY: Str := Text("unk_token_id")
  const BOS_KEY: Str := Text("bos_token_id")
  const EOS_KEY: Str := Text("eos_token_id")

  function ModeName(mode: Mode): Str {
    if mode.UNICODE? then Text("UNICODE") else Text("ASCII")
  }

  function NormalizationName(norm: Normalization): Str {
    if norm.CASED? then Text("CASED") else Text("LOWERCASE")
  }

  function Header(m: Model): seq<Str> {
    [VERSION_COMMENT + Text("2.0"),
     TOKENIZER_MODE + [SPACE] + ModeName(m.mode),
     NORMALIZATION + [SPACE] + NormalizationName(m.norm),
     VOCAB_SIZE + [SPACE] + Printed(|m.tables.vocab|),
     SPECIAL_TOKENS,
     IdLine(PAD_KEY, m.pad), IdLine(UNK_KEY, m.unk), IdLine(BOS_KEY, m.bos), IdLine(EOS_KEY, m.eos),
     VOCAB]
  }

  function VocabLines(vocab: map<Str, int>, order: seq<Str>): seq<Str>
    requires forall i | 0 <= i < |order| :: order[i] in vocab
  {
    seq(|order|, i requires 0 <= i < |order| => VocabLine(vocab, order[i]))
  }

  function MergeLines(merges: seq<Pair>): seq<Str> {
    seq(|merges|, i requires 0 <= i < |merges| => MergeLine(merges[i]))
  }

  /** An order in which the hash table may hand out its keys. */
  ghost predicate IsOrder(vocab: map<Str, int>, order: seq<Str>) {
    && Distinct(order)
    && (forall i | 0 <= i < |order| :: order[i] in vocab)
    && (forall t | t in vocab :: t in order)
  }

  function SavedLines(m: Model, order: seq<Str>): seq<Str>
    requires forall i | 0 <= i < |order| :: order[i] in m.tables.vocab
  {
    Header(m) + VocabLines(m.tables.vocab, order)
    + [BPE_MERGES + [SPACE] + Printed(|m.merges|)] + MergeLines(m.merges)
  }

  function SavedText(m: Model, order: seq<Str>): Str
    requires forall i | 0 <= i < |order| :: order[i] in m.tables.vocab
  {
    Unlines(SavedLines(m, order))
  }

  lemma TextAppend(a: string, b: string)
    ensures Text(a + b) == Text(a) + Text(b)
  {
  }

  lemma ModeLine(mode: Mode)
    ensures TOKENIZER_MODE + [SPACE] + ModeName(mode) ==
            if mode.UNICODE? then Text("TOKENIZER_MODE UNICODE") else Text("TOKENIZER_MODE ASCII")
  {
    Spaced("TOKENIZER_MODE", "UNICODE");
    Spaced("TOKENIZER_MODE", "ASCII");
    assert "TOKENIZER_MODE" + " " + "UNICODE" == "TOKENIZER_MODE UNICODE";
    assert "TOKENIZER_MODE" + " " + "ASCII" == "TOKENIZER_MODE ASCII";
    hide Text;
  }

  lemma NormalizationLine(norm: Normalization)
    ensures NORMALIZATION + [SPACE] + NormalizationName(norm) ==
            if norm.CASED? then Text("NORMALIZATION CASED") else Text("NORMALIZATION LOWERCASE")
  {
    Spaced("NORMALIZATION", "CASED");
    Spaced("NORMALIZATION", "LOWERCASE");
    assert "NORMALIZATION" + " " + "CASED" == "NORMALIZATION CASED";
    assert "NORMALIZATION" + " " + "LOWERCASE" == "NORMALIZATION LOWERCASE";
    hide Text;
  }

  lemma VersionLine()
    ensures VERSION_COMMENT + Text("2.0") == Text("# BPE Tokenizer Vocabulary v2.0")
  {
    TextAppend("# BPE Tokenizer Vocabulary v", "2.0");
    assert "# BPE Tokenizer Vocabulary v" + "2.0" == "# BPE Tokenizer Vocabulary v2.0";
    hide Text;
  }

  /** The lines in front of the tokens, letter by letter. */
  lemma HeaderLines(m: Model)
    ensures Header(m) ==
      [Text("# BPE Tokenizer Vocabulary v2.0"),
       if m.mode.UNICODE? then Text("TOKENIZER_MODE UNICODE") else Text("TOKENIZER_MODE ASCII"),
       if m.norm.CASED? then Text("NORMALIZATION CASED") else Text("NORMALIZATION LOWERCASE"),
       Text("VOCAB_SIZE") + Text(" ") + Printed(|m.tables.vocab|),
       Text("SPECIAL_TOKENS"),
       Text("pad_token_id") + Text(" ") + Printed(m.pad), Text("unk_token_id") + Text(" ") + Printed(m.unk),
       Text("bos_token_id") + Text(" ") + Printed(m.bos), Text("eos_token_id") + Text(" ") + Printed(m.eos),
       Text("VOCAB")]
  {
    VersionLine();
    ModeLine(m.mode);
    NormalizationLine(m.norm);
    assert Text(" ") == [SPACE];
    hide Text, Printed, ModeName, NormalizationName;
  }

  lemma Spaced(a: string, b: string)
    ensures Text(a + " " + b) == Text(a) + [SPACE] + Text(b)
  {
    TextAppend(a + " ", b);
    TextAppend(a, " ");
    assert Text(" ") == [SPACE];
  }

  // --------------------------------------------------------------- loading

  datatype Section = NoSection | InSpecials | InVocab | InMerges

  /** The fields while a file is being read, and the section the next line belongs to. */
  datatype Reading = Reading(m: Model, section: Section)

  datatype Outcome = Continue(st: Reading) | Throw(st: Reading, error: Error)

  function StartReading(m: Model): Reading {
    Reading(m.(norm := LOWERCASE, mode := ASCII, tables := Tables(map[], map[]), merges := [], specials := {}), NoSection)
  }

  function VersionMajor(s: Str): int {
    match Stoi(s)
    case Int(n) => n
    case _ => 0
  }

  function ReadVersion(st: Reading, line: Str): Outcome
    requires VERSION_COMMENT <= line
  {
    if VersionMajor(line[|VERSION_COMMENT|..]) > FORMAT_MAJOR then Throw(st, VocabularyFileError) else Continue(st)
  }

  function ReadNormalization(st: Reading, line: Str): Outcome {
    var value := if |line| > 14 then line[14..] else [];
    if value == Text("CASED") then Continue(st.(m := st.m.(norm := CASED)))
    else if value == Text("LOWERCASE") then Continue(st.(m := st.m.(norm := LOWERCASE)))
    else Throw(st, VocabularyFileError)
  }

  function ReadMode(st: Reading, line: Str): Outcome {
    if |line| < 15 then Throw(st, Results.OutOfRange)
    else Continue(st.(m := st.m.(mode := if line[15..] == Text("UNICODE") then UNICODE else ASCII)))
  }

  function ReadSpecial(st: Reading, line: Str): Outcome {
    var at := Find(line, SPACE);
    if at == |line| then Throw(st, VocabularyFileError)
    else
      var key := line[..at];
      match Stoi(line[at + 1..])
      case Int(n) =>
        Continue(st.(m :=
          if key == PAD_KEY then st.m.(pad := n)
          else if key == UNK_KEY then st.m.(unk := n)
          else if key == BOS_KEY then st.m.(bos := n)
          else if key == EOS_KEY then st.m.(eos := n)
          else st.m))
      case _ => Throw(st, VocabularyFileError)
  }

  function ReadToken(st: Reading, line: Str): Outcome {
    var at := Find(line, TAB);
    if at == |line| then Throw(st, VocabularyFileError)
    else
      match Stoi(line[at + 1..])
      case Int(id) =>
        if id < 0 then Throw(st, VocabularyFileError)
        else
          var token := Unescape(line[..at]);
          var m := st.m.(tables := st.m.tables.Enter(token, id));
          Continue(st.(m := if id in {m.pad, m.unk, m.bos, m.eos} then m.(specials := m.specials + {token}) else m))
      case _ => Throw(st, VocabularyFileError)
  }

  function ReadMerge(st: Reading, line: Str): Outcome {
    var at := Find(line, TAB);
    if at == |line| then Throw(st, VocabularyFileError)
    else
      var p := (Unescape(line[..at]), Unescape(line[at + 1..]));
      if p.0 == [] || p.1 == [] then Throw(st, VocabularyFileError)
      else Continue(st.(m := st.m.(merges := st.m.merges + [p])))
  }

  /** The loader's choice for a line that is no header. */
  function ReadField(st: Reading, line: Str): Outcome {
    match st.section
    case NoSection => Throw(st, VocabularyFileError)
    case InSpecials => ReadSpecial(st, line)
    case InVocab => ReadToken(st, line)
    case InMerges => ReadMerge(st, line)
  }

  /** One line, taken in the order of the loader: comments, header lines, then the section's own lines. */
  function ReadLine(st: Reading, line: Str): Outcome {
    if VERSION_COMMENT <= line then ReadVersion(st, line)
    else if line == [] || line[0] == HASH then Continue(st)
    else if NORMALIZATION <= line then ReadNormalization(st, line)
    else if TOKENIZER_MODE <= line then ReadMode(st, line)
    else if VOCAB_SIZE <= line then Continue(st)
    else if line == SPECIAL_TOKENS then Continue(st.(section := InSpecials))
    else if line == VOCAB then Continue(st.(section := InVocab))
    else if BPE_MERGES <= line then Continue(st.(section := InMerges))
    else ReadField(st, line)
  }

  function ReadLines(st: Reading, lines: seq<Str>): Outcome
    decreases lines
  {
    if lines == [] then Continue(st)
    else
      match ReadLine(st, lines[0])
      case Throw(_, _) => ReadLine(st, lines[0])
      case Continue(next) => ReadLines(next, lines[1..])
  }

  /** The checks and repairs after the last line. */
  function Finish(st: Reading): Outcome {
    var m := st.m;
    if m.tables.vocab == map[] then Throw(st, VocabularyFileError)
    else if PAD !in m.tables.vocab || UNK !in m.tables.vocab || BOS !in m.tables.vocab || EOS !in m.tables.vocab
    then Throw(st, VocabularyFileError)
    else
      Continue(st.(m := m.(
        specials := m.specials + {PAD} + {UNK} + {BOS} + {EOS},
        tables := m.tables.(inverse := m.tables.inverse[m.pad := PAD][m.unk := UNK][m.bos := BOS][m.eos := EOS]))))
  }

  function Load(m: Model, text: Str): Outcome {
    match ReadLines(StartReading(m), Lines(text))
    case Throw(st, e) => Throw(st, e)
    case Continue(st) => Finish(st)
  }

  // ------------------------------------------------ which lines are headers

  /** A line the loader takes for a comment or a header, whatever the section. */
  predicate Headerish(line: Str) {
    || line == [] || line[0] == HASH
    || NORMALIZATION <= line || TOKENIZER_MODE <= line || VOCAB_SIZE <= line
    || line == SPECIAL_TOKENS || line == VOCAB || BPE_MERGES <= line
  }

  /** A token whose line the loader takes for a comment or a header. */
  predicate ReadsAsHeader(t: Str) {
    || (t != [] && t[0] == HASH)
    || NORMALIZATION <= t || TOKENIZER_MODE <= t || VOCAB_SIZE <= t || BPE_MERGES <= t
  }

  predicate Keyword(word: Str) {
    && word != [] && Plain(word)
    && forall i | 0 <= i < |word| :: word[i] != TAB && word[i] != LF
  }

  lemma TextIsKeyword(s: string)
    requires s != "" && forall i | 0 <= i < |s| :: '!' <= s[i] <= '_' && s[i] != '\\'
    ensures Keyword(Text(s))
  {
  }

  lemma Keywords()
    ensures Keyword(NORMALIZATION) && Keyword(TOKENIZER_MODE) && Keyword(VOCAB_SIZE) && Keyword(BPE_MERGES)
    ensures Keyword(SPECIAL_TOKENS) && Keyword(VOCAB)
  {
    TextIsKeyword("NORMALIZATION");
    TextIsKeyword("TOKENIZER_MODE");
    TextIsKeyword("VOCAB_SIZE");
    TextIsKeyword("BPE_MERGES");
    TextIsKeyword("SPECIAL_TOKENS");
    TextIsKeyword("VOCAB");
  }

  lemma PrefixBeforeTab(word: Str, field: Str, tail: Str)
    requires Keyword(word)
    ensures word <= field + [TAB] + tail <==> word <= field
    ensures word != field + [TAB] + tail
  {
    var line := field + [TAB] + tail;
    assert line[|field|] == TAB;
    if word <= line && |field| < |word| {
      LongPrefixHasTab(word, field, tail);
    }
    if |word| <= |field| {
      assert line[..|word|] == field[..|word|];
    }
  }

  lemma LongPrefixHasTab(word: Str, field: Str, tail: Str)
    requires word <= field + [TAB] + tail && |field| < |word|
    ensures exists i | 0 <= i < |word| :: word[i] == TAB
  {
    assert word[|field|] == (field + [TAB] + tail)[|field|];
  }

  lemma FieldPrefix(word: Str, t: Str, tail: Str)
    requires Keyword(word)
    ensures word <= Escape(t) + [TAB] + tail <==> word <= t
  {
    PrefixBeforeTab(word, Escape(t), tail);
    EscapeKeepsPrefix(word, t);
  }

  lemma FieldHeaderish(t: Str, tail: Str)
    ensures Headerish(Escape(t) + [TAB] + tail) <==> ReadsAsHeader(t)
    ensures Escape(t) + [TAB] + tail != SPECIAL_TOKENS && Escape(t) + [TAB] + tail != VOCAB
  {
    Keywords();
    hide Keyword, Escape;
    var line := Escape(t) + [TAB] + tail;
    FieldPrefix(NORMALIZATION, t, tail);
    FieldPrefix(TOKENIZER_MODE, t, tail);
    FieldPrefix(VOCAB_SIZE, t, tail);
    FieldPrefix(BPE_MERGES, t, tail);
    PrefixBeforeTab(SPECIAL_TOKENS, Escape(t), tail);
    PrefixBeforeTab(VOCAB, Escape(t), tail);
    FieldFirst(t, tail);
  }

  lemma FieldFirst(t: Str, tail: Str)
    ensures var line := Escape(t) + [TAB] + tail;
      line != [] && (line[0] == HASH <==> t != [] && t[0] == HASH)
  {
  }

  lemma ReadPlainLine(st: Reading, line: Str)
    requires !Headerish(line)
    ensures ReadLine(st, line) == ReadField(st, line)
  {
  }

  lemma {:induction false} ReadLinesAppend(st: Reading, a: seq<Str>, b: seq<Str>)
    ensures ReadLines(st, a + b) ==
      match ReadLines(st, a)
      case Throw(_, _) => ReadLines(st, a)
      case Continue(next) => ReadLines(next, b)
    decreases a
  {
    hide ReadLine;
    if a == [] {
      assert a + b == b;
    } else {
      assert (a + b)[1..] == a[1..] + b;
      match ReadLine(st, a[0])
      case Throw(_, _) =>
      case Continue(next) => ReadLinesAppend(next, a[1..], b);
    }
  }

  lemma ReadCons(st: Reading, line: Str, rest: seq<Str>)
    ensures ReadLines(st, [line] + rest) ==
      if ReadLine(st, line).Throw? then ReadLine(st, line) else ReadLines(ReadLine(st, line).st, rest)
  {
  }

  lemma ReadOneLine(st: Reading, line: Str)
    ensures ReadLines(st, [line]) == ReadLine(st, line)
  {
  }

  // ------------------------------------------------------ reading the header

  /** What the loader knows after the header of a saved tokenizer. */
  function AfterHeader(m: Model): Reading {
    Reading(m.(tables := Tables(map[], map[]), merges := [], specials := {}), InVocab)
  }

  predicate FitsInt(n: int) {
    0 <= n < 0x8000_0000
  }

  /** The four keys are told apart by their first byte. */
  predicate IdKey(key: Str) {
    key != [] && key[0] in {0x70, 0x75, 0x62, 0x65} && NoSpace(key)
  }

  lemma IdLinePlain(key: Str, id: int)
    requires IdKey(key)
    ensures !Headerish(IdLine(key, id))
  {
    FirstBytes();
    hide Text, Printed;
    assert IdLine(key, id)[0] == key[0];
  }

  lemma IdLineSplit(key: Str, id: int)
    requires IdKey(key)
    ensures var line := IdLine(key, id);
      Find(line, SPACE) == |key| < |line| && line[..|key|] == key && line[|key| + 1..] == Printed(id)
  {
    hide Printed;
    FindIs(key, SPACE, Printed(id));
  }

  lemma IdLineRead(st: Reading, key: Str, id: int)
    requires st.section.InSpecials? && FitsInt(id) && IdKey(key)
    ensures ReadLine(st, IdLine(key, id)) == Continue(st.(m :=
      if key == PAD_KEY then st.m.(pad := id)
      else if key == UNK_KEY then st.m.(unk := id)
      else if key == BOS_KEY then st.m.(bos := id)
      else if key == EOS_KEY then st.m.(eos := id)
      else st.m))
  {
    var line := IdLine(key, id);
    IdLinePlain(key, id);
    ReadPlainLine(st, line);
    IdLineSplit(key, id);
    StoiPrinted(id);
    hide Headerish, IdLine, Find, Stoi, Printed, Text, ReadLine;
  }

  lemma IdKeys()
    ensures IdKey(PAD_KEY) && IdKey(UNK_KEY) && IdKey(BOS_KEY) && IdKey(EOS_KEY)
    ensures PAD_KEY[0] == 0x70 && UNK_KEY[0] == 0x75 && BOS_KEY[0] == 0x62 && EOS_KEY[0] == 0x65
  {
  }

  predicate NoSpace(s: Str) {
    forall i | 0 <= i < |s| :: s[i] != SPACE
  }

  lemma FirstBytes()
    ensures VERSION_COMMENT != [] && VERSION_COMMENT[0] == HASH
    ensures NORMALIZATION != [] && NORMALIZATION[0] == 0x4E
    ensures TOKENIZER_MODE != [] && TOKENIZER_MODE[0] == 0x54
    ensures VOCAB_SIZE != [] && VOCAB_SIZE[0] == 0x56 && |VOCAB_SIZE| == 10
    ensures SPECIAL_TOKENS != [] && SPECIAL_TOKENS[0] == 0x53
    ensures VOCAB != [] && VOCAB[0] == 0x56 && |VOCAB| == 5
    ensures BPE_MERGES != [] && BPE_MERGES[0] == 0x42
    ensures |NORMALIZATION| == 13 && |TOKENIZER_MODE| == 14
  {
  }

  lemma VersionLineRead(st: Reading)
    ensures ReadLine(st, VERSION_COMMENT + Text("2.0")) == Continue(st)
  {
    var line := VERSION_COMMENT + Text("2.0");
    var rest := line[|VERSION_COMMENT|..];
    assert rest == [0x32, 0x2E, 0x30];
    assert RunLength(White, rest) == 0;
    assert rest[0..] == rest;
    assert ReadDigits(rest, 0) == ReadDigits(rest[1..], 2) == 2;
    assert Stoi(rest) == Int(2);
    assert VERSION_COMMENT <= line;
  }

  lemma ModeLineRead(st: Reading, mode: Mode)
    ensures ReadLine(st, TOKENIZER_MODE + [SPACE] + ModeName(mode)) == Continue(st.(m := st.m.(mode := mode)))
  {
  }

  lemma NormalizationLineRead(st: Reading, norm: Normalization)
    ensures ReadLine(st, NORMALIZATION + [SPACE] + NormalizationName(norm)) == Continue(st.(m := st.m.(norm := norm)))
  {
  }

  lemma SectionLinesRead(st: Reading, n: nat)
    ensures ReadLine(st, VOCAB_SIZE + [SPACE] + Printed(n)) == Continue(st)
    ensures ReadLine(st, SPECIAL_TOKENS) == Continue(st.(section := InSpecials))
    ensures ReadLine(st, VOCAB) == Continue(st.(section := InVocab))
    ensures ReadLine(st, BPE_MERGES + [SPACE] + Printed(n)) == Continue(st.(section := InMerges))
  {
    FirstBytes();
    assert VOCAB_SIZE <= VOCAB_SIZE + [SPACE] + Printed(n);
    assert BPE_MERGES <= BPE_MERGES + [SPACE] + Printed(n);
    assert (VOCAB_SIZE + [SPACE] + Printed(n))[0] == 0x56;
    assert (BPE_MERGES + [SPACE] + Printed(n))[0] == 0x42;
  }

  /** A run of lines that each lead from one state to the next. */
  lemma {:induction false} ReadChain(states: seq<Reading>, lines: seq<Str>)
    requires |states| == |lines| + 1
    requires forall i | 0 <= i < |lines| :: ReadLine(states[i], lines[i]) == Continue(states[i + 1])
    ensures ReadLines(states[0], lines) == Continue(states[|lines|])
    decreases lines
  {
    hide ReadLine;
    if lines == [] {
    } else {
      forall i | 0 <= i < |lines[1..]| ensures ReadLine(states[1..][i], lines[1..][i]) == Continue(states[1..][i + 1]) {
        assert ReadLine(states[i + 1], lines[i + 1]) == Continue(states[i + 2]);
      }
      assert ReadLine(states[0], lines[0]) == Continue(states[1]);
      ReadChain(states[1..], lines[1..]);
    }
  }

  lemma HeaderRead(m0: Model, m: Model)
    requires FitsInt(m.pad) && FitsInt(m.unk) && FitsInt(m.bos) && FitsInt(m.eos)
    ensures ReadLines(StartReading(m0), Header(m)) == Continue(AfterHeader(m))
  {
    var s0 := StartReading(m0);
    var s3 := s0.(m := s0.m.(mode := m.mode, norm := m.norm), section := InSpecials);
    OpeningRead(s0, m);
    SpecialsRead(s3, m);
    HeaderSplit(m);
    hide Header;
    ReadLinesAppend(s0, Header(m)[..5], Header(m)[5..]);
  }

  lemma HeaderSplit(m: Model)
    ensures |Header(m)| == 10 && Header(m) == Header(m)[..5] + Header(m)[5..]
    ensures Header(m)[..5] ==
      [VERSION_COMMENT + Text("2.0"), TOKENIZER_MODE + [SPACE] + ModeName(m.mode),
       NORMALIZATION + [SPACE] + NormalizationName(m.norm), VOCAB_SIZE + [SPACE] + Printed(|m.tables.vocab|),
       SPECIAL_TOKENS]
    ensures Header(m)[5..] ==
      [IdLine(PAD_KEY, m.pad), IdLine(UNK_KEY, m.unk), IdLine(BOS_KEY, m.bos), IdLine(EOS_KEY, m.eos), VOCAB]
  {
  }

  lemma OpeningRead(s0: Reading, m: Model)
    ensures ReadLines(s0, Header(m)[..5])
         == Continue(s0.(m := s0.m.(mode := m.mode, norm := m.norm), section := InSpecials))
  {
    var s1 := s0.(m := s0.m.(mode := m.mode));
    var s2 := s1.(m := s1.m.(norm := m.norm));
    var s3 := s2.(section := InSpecials);
    hide ReadLine, ModeName, NormalizationName, Header, Text, Printed;
    VersionLineRead(s0);
    ModeLineRead(s0, m.mode);
    NormalizationLineRead(s1, m.norm);
    SectionLinesRead(s2, |m.tables.vocab|);
    HeaderSplit(m);
    ReadChain([s0, s0, s1, s2, s2, s3], Header(m)[..5]);
  }

  lemma SpecialsRead(st: Reading, m: Model)
    requires st.section.InSpecials?
    requires FitsInt(m.pad) && FitsInt(m.unk) && FitsInt(m.bos) && FitsInt(m.eos)
    ensures ReadLines(st, Header(m)[5..])
         == Continue(st.(m := st.m.(pad := m.pad, unk := m.unk, bos := m.bos, eos := m.eos), section := InVocab))
  {
    var s5 := st.(m := st.m.(pad := m.pad));
    var s6 := s5.(m := s5.m.(unk := m.unk));
    var s7 := s6.(m := s6.m.(bos := m.bos));
    var s8 := s7.(m := s7.m.(eos := m.eos));
    var s9 := s8.(section := InVocab);
    hide ReadLine, IdLine, NoSpace, Text, Header;
    IdKeys();
    IdLineRead(st, PAD_KEY, m.pad);
    IdLineRead(s5, UNK_KEY, m.unk);
    IdLineRead(s6, BOS_KEY, m.bos);
    IdLineRead(s7, EOS_KEY, m.eos);
    SectionLinesRead(s8, 0);
    HeaderSplit(m);
    ReadChain([st, s5, s6, s7, s8, s9], Header(m)[5..]);
  }
}
