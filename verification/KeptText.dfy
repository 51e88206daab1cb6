/** The text that the pre-tokens spell: which white space survives, for every text, and when it is the white space meant. */
module KeptText {
  import opened Bytes
  import opened Units
  import opened Regex
  import opened PreTokenizing
  import opened Sequences

  // ----------------------------------------------- the text that survives

  /** Vertical tab and form feed count as punctuation for the pattern and as white space for the squashing. */
  predicate IsVertical(c: Byte) {
    c == VT || c == FF
  }

  function VerticalLength(s: Str): (n: nat)
    ensures n <= |s|
  {
    if s != [] && IsVertical(s[0]) then 1 + VerticalLength(s[1..]) else 0
  }

  /** A space that the pattern attaches to the word behind it. */
  predicate SpaceBeforeText(s: Str) {
    |s| > 1 && s[0] == SPACE && !IsBlank(s[1])
  }

  /** How many of the white bytes at the front become one space together. */
  function SpanLength(s: Str): (n: nat)
    requires s != [] && IsWhite(s[0])
    ensures 1 <= n <= |s|
  {
    if IsVertical(s[0]) then VerticalLength(s)
    else if SpaceBeforeText(s) then 1 + VerticalLength(s[1..])
    else WhiteLength(s)
  }

  /** The text with one space for each span of white bytes. */
  function Respace(s: Str): Str
    decreases |s|
  {
    if s == [] then []
    else if IsWhite(s[0]) then [SPACE] + Respace(s[SpanLength(s)..])
    else [s[0]] + Respace(s[1..])
  }

  predicate NoBlank(s: Str) {
    forall i | 0 <= i < |s| :: !IsBlank(s[i])
  }

  /** Cutting here does not divide a run of vertical white bytes. */
  predicate CleanCut(a: Str, b: Str) {
    a == [] || b == [] || !IsVertical(a[|a| - 1]) || !IsVertical(b[0])
  }

  lemma {:induction false} VerticalIs(s: Str, rest: Str)
    requires NoBlank(s) && CleanCut(s, rest)
    ensures VerticalLength(s) == RunLength(White, s)
    ensures s != [] ==> VerticalLength(s + rest) == VerticalLength(s)
    ensures VerticalLength(s) < |s| ==> !IsWhite(s[VerticalLength(s)])
  {
    if s == [] {
    } else {
      assert (s + rest)[0] == s[0];
      if IsVertical(s[0]) {
        assert (s + rest)[1..] == s[1..] + rest;
        VerticalIs(s[1..], rest);
        if |s| == 1 {
          assert s[1..] + rest == rest;
        }
      }
    }
  }

  lemma CutTail(s: Str, rest: Str, n: nat)
    requires NoBlank(s) && CleanCut(s, rest) && n <= |s|
    ensures NoBlank(s[n..]) && CleanCut(s[n..], rest)
  {
  }

  /** What the front of a stretch without blanks becomes, by itself and in the whole text. */
  lemma FrontAlike(s: Str, rest: Str) returns (n: nat, front: Str)
    requires s != [] && NoBlank(s) && CleanCut(s, rest)
    ensures 1 <= n <= |s|
    ensures Squash(s) == front + Squash(s[n..])
    ensures Respace(s + rest) == front + Respace(s[n..] + rest)
  {
    n := if IsWhite(s[0]) then VerticalLength(s) else 1;
    front := if IsWhite(s[0]) then [SPACE] else [s[0]];
    VerticalIs(s, rest);
    assert (s + rest)[0] == s[0] && (s + rest)[n..] == s[n..] + rest;
  }

  /** A stretch without blanks is squashed the way the whole text is. */
  lemma {:induction false} SquashIsRespace(s: Str, rest: Str)
    requires NoBlank(s) && CleanCut(s, rest)
    ensures Squash(s) + Respace(rest) == Respace(s + rest)
    decreases |s|
  {
    if s == [] {
      assert s + rest == rest && Squash(s) == [];
    } else {
      hide Squash, Respace, NoBlank, CleanCut;
      var n, front := FrontAlike(s, rest);
      CutTail(s, rest, n);
      SquashIsRespace(s[n..], rest);
      Associates(front, Squash(s[n..]), Respace(rest));
    }
  }

  lemma WhiteToken(mode: Mode, s: Str)
    requires s != [] && IsBlank(s[0]) && !SpaceBeforeText(s)
    ensures TokenLength(mode, s) == WhiteLength(s)
  {
  }

  lemma ContractionHasNoWhite(s: Str)
    ensures Contraction(s) > 0 ==> s[0] == QUOTE && NoWhite(s[..Contraction(s)])
  {
  }

  lemma WordRunCut(mode: Mode, s: Str)
    requires s != [] && !IsBlank(s[0])
    ensures var n := RunLength(WordClass(mode, s[0]), s);
      NoBlank(s[..n]) && CleanCut(s[..n], s[n..])
  {
    var k := WordClass(mode, s[0]);
    var n := RunLength(k, s);
    RunLongest(k, s);
    assert forall i | 0 <= i < n :: Member(k, s[i]);
  }

  lemma WordToken(mode: Mode, s: Str)
    requires s != [] && !IsBlank(s[0])
    ensures var n := TokenLength(mode, s);
      NoBlank(s[..n]) && CleanCut(s[..n], s[n..])
  {
    if Contraction(s) > 0 {
      ContractionHasNoWhite(s);
    } else {
      WordRunCut(mode, s);
    }
  }

  lemma SpacedToken(mode: Mode, s: Str)
    requires SpaceBeforeText(s)
    ensures var n := TokenLength(mode, s);
      n > 1 && NoBlank(s[1..n]) && CleanCut(s[1..n], s[n..])
  {
    var word := s[1..];
    WordRunCut(mode, word);
    var n := RunLength(WordClass(mode, word[0]), word);
    assert TokenLength(mode, s) == 1 + n;
    assert s[1..1 + n] == word[..n] && s[1 + n..] == word[n..];
  }

  lemma SquashSpaced(word: Str)
    requires NoBlank(word)
    ensures Squash([SPACE] + word) == [SPACE] + Squash(word[VerticalLength(word)..])
  {
    var t := [SPACE] + word;
    VerticalIs(word, []);
    assert t[1..] == word;
    assert t[1 + VerticalLength(word)..] == word[VerticalLength(word)..];
  }

  lemma RespaceSpaced(word: Str, rest: Str)
    requires word != [] && NoBlank(word) && CleanCut(word, rest)
    ensures Respace([SPACE] + (word + rest)) == [SPACE] + Respace(word[VerticalLength(word)..] + rest)
  {
    var k := VerticalLength(word);
    var t := [SPACE] + (word + rest);
    VerticalIs(word, rest);
    assert t[1..] == word + rest && t[1] == word[0];
    hide VerticalLength;
    assert t[1 + k..] == word[k..] + rest;
  }

  /** A space and the word attached to it. */
  lemma SpacedPiece(word: Str, rest: Str)
    requires word != [] && NoBlank(word) && CleanCut(word, rest)
    ensures Squash([SPACE] + word) + Respace(rest) == Respace([SPACE] + word + rest)
  {
    hide *;
    var behind := word[VerticalLength(word)..];
    SquashSpaced(word);
    RespaceSpaced(word, rest);
    CutTail(word, rest, VerticalLength(word));
    SquashIsRespace(behind, rest);
    Associates([SPACE], word, rest);
    Associates([SPACE], Squash(behind), Respace(rest));
  }

  lemma WhitePiece(s: Str)
    requires s != [] && IsBlank(s[0]) && !SpaceBeforeText(s)
    ensures Squash(s[..WhiteLength(s)]) + Respace(s[WhiteLength(s)..]) == Respace(s)
  {
    var n := WhiteLength(s);
    RunLongest(White, s);
    SquashWhite(s[..n]);
  }

  /** The pre-tokens of any text, put together again, are the text with each span of white bytes made one space. */
  lemma {:induction false} PreTokensKeepText(mode: Mode, s: Str)
    ensures Concat(SquashAll(Pieces(mode, s))) == Respace(s)
    decreases |s|
  {
    hide TokenLength, Squash, RunLength, Respace;
    if s == [] {
      RespaceNothing();
    } else {
      var n := TokenLength(mode, s);
      var rest := s[n..];
      PreTokensKeepText(mode, rest);
      assert SquashAll(Pieces(mode, s)) == [Squash(s[..n])] + SquashAll(Pieces(mode, rest));
      assert s == s[..n] + rest;
      if !IsBlank(s[0]) {
        WordToken(mode, s);
        SquashIsRespace(s[..n], rest);
      } else if SpaceBeforeText(s) {
        SpacedToken(mode, s);
        SpacedPiece(s[1..n], rest);
        assert s[..n] == [SPACE] + s[1..n];
      } else {
        WhiteToken(mode, s);
        WhitePiece(s);
      }
    }
  }

  lemma RespaceNothing()
    ensures Respace([]) == []
  {
  }

  /** The text the tokenizer keeps of `t`. */
  function Kept(norm: Normalization, t: Str): Str {
    Respace(Normalize(norm, t))
  }

  predicate NoVerticalWhite(s: Str) {
    forall i | 0 <= i < |s| :: !IsVertical(s[i])
  }

  lemma {:induction false} RespaceNoVertical(s: Str)
    ensures NoVerticalWhite(Respace(s))
    ensures s != [] && !IsWhite(s[0]) ==> Respace(s) != [] && !IsWhite(Respace(s)[0])
    decreases |s|
  {
    hide SpanLength;
    if s == [] {
    } else {
      RespaceNoVertical(if IsWhite(s[0]) then s[SpanLength(s)..] else s[1..]);
    }
  }

  lemma LowerAppend(a: Str, b: Str)
    ensures Lower(a + b) == Lower(a) + Lower(b)
  {
  }

  lemma LowerRespace(s: Str)
    ensures Lower(Respace(Lower(s))) == Respace(Lower(s))
  {
    LowerFixed(Lower(s));
    assert Lower(Lower(s)) == Lower(s);
  }

  lemma {:induction false} LowerFixed(s: Str)
    requires Lower(s) == s
    ensures Lower(Respace(s)) == Respace(s)
    decreases |s|
  {
    hide SpanLength;
    if s == [] {
    } else {
      var n := if IsWhite(s[0]) then SpanLength(s) else 1;
      assert Lower(s[n..]) == Lower(s)[n..];
      LowerFixed(s[n..]);
      LowerAppend([if IsWhite(s[0]) then SPACE else s[0]], Respace(s[n..]));
      assert Lower(s)[0] == s[0];
    }
  }

  lemma {:induction false} VerticalIsWhite(s: Str)
    ensures VerticalLength(s) <= RunLength(White, s)
  {
    if s == [] || !IsVertical(s[0]) {
    } else {
      VerticalIsWhite(s[1..]);
    }
  }

  lemma SpanInRun(s: Str)
    requires s != [] && IsWhite(s[0])
    ensures SpanLength(s) <= RunLength(White, s)
  {
  }

  lemma RunStarts(s: Str)
    requires s != [] && IsWhite(s[0])
    ensures RunLength(White, s) > 0
  {
  }
}
