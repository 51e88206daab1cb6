/** Pre-tokenization: case folding, the token pattern, and the squashing of white runs inside each match. */
module PreTokenizing {
  import opened Bytes
  import opened Units
  import opened Regex
  import opened Results

  datatype Normalization = LOWERCASE | CASED

  function LowerByte(c: Byte): Byte {
    if 0x41 <= c <= 0x5A then c + 0x20 else c
  }

  function Lower(s: Str): Str {
    seq(|s|, i requires 0 <= i < |s| => LowerByte(s[i]))
  }

  function Normalize(norm: Normalization, s: Str): Str {
    if norm.CASED? then s else Lower(s)
  }

  /** Replace every run of white bytes by one space. */
  function Squash(s: Str): Str
    decreases |s|
  {
    if s == [] then []
    else if IsWhite(s[0]) then [SPACE] + Squash(s[RunLength(White, s)..])
    else [s[0]] + Squash(s[1..])
  }

  /** The matches of the pattern, in order, before squashing. */
  function Pieces(mode: Mode, s: Str): seq<Str>
    decreases |s|
  {
    if s == [] then [] else [s[..TokenLength(mode, s)]] + Pieces(mode, s[TokenLength(mode, s)..])
  }

  function SquashAll(pieces: seq<Str>): seq<Str> {
    seq(|pieces|, i requires 0 <= i < |pieces| => Squash(pieces[i]))
  }

  /** The pre-tokens of a text that has passed the UTF-8 check. */
  function PreTokens(mode: Mode, norm: Normalization, text: Str): seq<Str> {
    SquashAll(Pieces(mode, Normalize(norm, text)))
  }

  lemma SquashNonEmpty(s: Str)
    ensures s != [] ==> Squash(s) != []
  {
  }

  lemma PiecesStep(mode: Mode, s: Str, i: nat, done: seq<Str>)
    requires i < |s|
    ensures var n := TokenLength(mode, s[i..]);
      done + SquashAll(Pieces(mode, s[i..]))
      == (done + [Squash(s[i..i + n])]) + SquashAll(Pieces(mode, s[i + n..]))
  {
    hide TokenLength, Squash;
    var n := TokenLength(mode, s[i..]);
    assert s[i..][..n] == s[i..i + n] && s[i..][n..] == s[i + n..];
    var rest := Pieces(mode, s[i + n..]);
    assert SquashAll([s[i..i + n]] + rest) == [Squash(s[i..i + n])] + SquashAll(rest);
  }

  /** `'A' + k` becomes `'a' + k` for each of the 26 letters, and every other byte stays. */
  predicate Lowered(s: Str, lower: Str) {
    && |lower| == |s|
    && forall i | 0 <= i < |s| ::
         if 'A' as int <= s[i] as int <= 'Z' as int then lower[i] as int - 'a' as int == s[i] as int - 'A' as int
         else lower[i] == s[i]
  }

  lemma LowerIsLowered(s: Str, lower: Str)
    ensures lower == Lower(s) <==> Lowered(s, lower)
  {
  }

  /** LOWERCASE lowers exactly the ASCII capitals, so that none is left; CASED changes nothing. */
  lemma NormalizeMeans(s: Str)
    ensures Lowered(s, Normalize(LOWERCASE, s)) && Normalize(CASED, s) == s
    ensures forall c | c in Normalize(LOWERCASE, s) :: c as int < 'A' as int || c as int > 'Z' as int
  {
    LowerIsLowered(s, Lower(s));
  }

  method ToLower(s: Str) returns (lower: Str)
    ensures lower == Lower(s) && Lowered(s, lower)
  {
    LowerIsLowered(s, Lower(s));
    lower := s;
    var i := 0;
    while i < |lower|
      invariant 0 <= i <= |lower| == |s|
      invariant forall k | 0 <= k < i :: lower[k] == LowerByte(s[k])
      invariant forall k | i <= k < |s| :: lower[k] == s[k]
    {
      lower := lower[i := LowerByte(lower[i])];
      i := i + 1;
    }
  }

  /** The check passes over an empty text. */
  lemma EmptyValid()
    ensures ValidUtf8([])
  {
  }

  lemma PiecesEnd(mode: Mode)
    ensures SquashAll(Pieces(mode, [])) == []
  {
  }

  method PreTokenize(mode: Mode, norm: Normalization, text: Str) returns (r: Result<seq<Str>>)
    ensures r == if ValidUtf8(text) then Ok(PreTokens(mode, norm, text)) else Err(EncodingError)
  {
    hide TokenLength, Squash, SquashAll, Pieces, ValidUtf8, LowerByte;
    EmptyValid();
    if text != [] {
      var valid := IsValidUtf8(text);
      if !valid {
        return Err(EncodingError);
      }
    }
    var lower := text;
    if norm.LOWERCASE? {
      lower := ToLower(text);
    }
    assert lower == Normalize(norm, text);
    hide *;
    var tokens: seq<Str> := [];
    assert lower[0..] == lower;
    var pos := 0;
    while pos < |lower|
      invariant 0 <= pos <= |lower|
      invariant tokens + SquashAll(Pieces(mode, lower[pos..])) == SquashAll(Pieces(mode, lower))
    {
      var n := TokenLength(mode, lower[pos..]);
      PiecesStep(mode, lower, pos, tokens);
      var token := Squash(lower[pos..pos + n]);
      SquashNonEmpty(lower[pos..pos + n]);
      if token != [] {
        tokens := tokens + [token];
      }
      pos := pos + n;
    }
    assert lower[pos..] == [];
    PiecesEnd(mode);
    assert tokens + [] == tokens;
    PreTokensAre(mode, norm, text, lower);
    return Ok(tokens);
  }

  lemma PreTokensAre(mode: Mode, norm: Normalization, text: Str, lower: Str)
    requires lower == Normalize(norm, text)
    ensures PreTokens(mode, norm, text) == SquashAll(Pieces(mode, lower))
  {
  }

  predicate NoWhite(s: Str) {
    forall i | 0 <= i < |s| :: !IsWhite(s[i])
  }

  lemma {:induction false} SquashWord(word: Str)
    requires NoWhite(word)
    ensures Squash(word) == word
  {
    if word == [] {
    } else {
      SquashWord(word[1..]);
    }
  }

  lemma SquashWhite(s: Str)
    requires s != [] && forall i | 0 <= i < |s| :: IsWhite(s[i])
    ensures Squash(s) == [SPACE]
  {
    RunIs(White, s, |s|);
  }

  // --------------------------------------------------------- letter case

  /** The texts differ at most in the case of ASCII letters. */
  predicate SameButCase(a: Str, b: Str) {
    && |a| == |b|
    && forall i | 0 <= i < |a| ::
         || a[i] == b[i]
         || (IsLetter(a[i]) && IsLetter(b[i])
             && (a[i] as int == b[i] as int + ('a' as int - 'A' as int) || b[i] as int == a[i] as int + ('a' as int - 'A' as int)))
  }

  /** Normalising to lower case forgets exactly the case of ASCII letters. */
  lemma SameButCaseExactly(a: Str, b: Str)
    ensures Normalize(LOWERCASE, a) == Normalize(LOWERCASE, b) <==> SameButCase(a, b)
  {
    if Lower(a) == Lower(b) {
      assert |Lower(a)| == |a| && |Lower(b)| == |b|;
      forall i | 0 <= i < |a| ensures LowerByte(a[i]) == LowerByte(b[i]) {
        assert Lower(a)[i] == Lower(b)[i];
      }
    }
  }

  /** Texts that differ only in the case of ASCII letters are accepted together and have the same pre-tokens. */
  lemma CaseIgnored(mode: Mode, a: Str, b: Str)
    requires SameButCase(a, b)
    ensures ValidUtf8(a) <==> ValidUtf8(b)
    ensures PreTokens(mode, LOWERCASE, a) == PreTokens(mode, LOWERCASE, b)
  {
    SameButCaseExactly(a, b);
    LowerValid(a);
    LowerValid(b);
  }

  // ------------------------------------- tokens are valid UTF-8 and unmixed

  lemma LowerStarts(s: Str)
    requires s != []
    ensures LeadLength(Lower(s)[0]) == LeadLength(s[0])
    ensures StartsSequence(Lower(s)) <==> StartsSequence(s)
  {
    forall j | 0 <= j < |s| ensures Continuation(Lower(s)[j]) <==> Continuation(s[j]) {
    }
  }

  lemma {:induction false} LowerValid(s: Str)
    ensures ValidUtf8(Lower(s)) <==> ValidUtf8(s)
    decreases |s|
  {
    if s == [] {
    } else {
      LowerStarts(s);
      if StartsSequence(s) {
        var n := LeadLength(s[0]);
        LowerValid(s[n..]);
        assert Lower(s)[n..] == Lower(s[n..]);
      }
    }
  }

  predicate Ascii(s: Str) {
    forall i | 0 <= i < |s| :: s[i] < 0x80
  }

  lemma {:induction false} AsciiValid(s: Str)
    requires Ascii(s)
    ensures ValidUtf8(s)
  {
    if s == [] {
    } else {
      AsciiValid(s[1..]);
      ValidStep(s, s[1..]);
    }
  }

  lemma {:induction false} SquashAscii(s: Str)
    requires Ascii(s)
    ensures Ascii(Squash(s))
    decreases |s|
  {
    if s == [] {
    } else {
      if IsWhite(s[0]) {
        SquashAscii(s[RunLength(White, s)..]);
      } else {
        SquashAscii(s[1..]);
      }
    }
  }

  /** In UNICODE mode a token is ASCII, or letters with at most one space in front and no letter behind. */
  lemma UnicodeTokenShape(s: Str)
    requires s != []
    ensures var n := TokenLength(UNICODE, s);
      || Ascii(s[..n])
      || ((n < |s| ==> s[n] < 0x80) && (NoWhite(s[..n]) || (s[0] == SPACE && NoWhite(s[1..n]))))
  {
    var n := TokenLength(UNICODE, s);
    if Contraction(s) > 0 {
      assert Ascii(s[..n]);
    } else if !IsBlank(s[0]) {
      RunLongest(WordClass(UNICODE, s[0]), s);
    } else if s[0] == SPACE && |s| > 1 && !IsBlank(s[1]) {
      var k := WordClass(UNICODE, s[1]);
      RunLongest(k, s[1..]);
      assert forall i | 1 <= i < n :: s[i] == s[1..][i - 1] && Member(k, s[i]);
      assert n < |s| ==> s[n] == s[1..][n - 1];
    } else {
      RunLongest(White, s);
    }
  }

  /** In UNICODE mode no code point is cut apart: every pre-token is valid UTF-8 again. */
  lemma {:induction false} PiecesValid(s: Str)
    requires ValidUtf8(s)
    ensures forall i | 0 <= i < |Pieces(UNICODE, s)| :: ValidUtf8(Squash(Pieces(UNICODE, s)[i]))
    decreases |s|
  {
    if s == [] {
    } else {
      var n := TokenLength(UNICODE, s);
      var token := s[..n];
      UnicodeTokenShape(s);
      if n < |s| {
        assert token[n - 1] == s[n - 1];
        CutAtAscii(s, n);
      } else {
        assert token == s && s[n..] == [];
      }
      if Ascii(token) {
        SquashAscii(token);
        AsciiValid(Squash(token));
      } else if NoWhite(token) {
        SquashWord(token);
      } else {
        SquashSpacedWord(token);
      }
      PiecesValid(s[n..]);
    }
  }

  lemma SquashSpacedWord(t: Str)
    requires t != [] && t[0] == SPACE && NoWhite(t[1..])
    ensures Squash(t) == t
  {
    SquashWord(t[1..]);
    assert |t| > 1 ==> t[1] == t[1..][0];
    RunIs(White, t, 1);
    assert t == [SPACE] + t[1..];
  }

  /** `<` and ASCII letters never share a pre-token. */
  predicate Unmixed(t: Str) {
    LESS_THAN in t ==> forall c | c in t :: !IsLetter(c)
  }

  lemma {:induction false} SquashBytes(s: Str, c: Byte)
    requires c in Squash(s)
    ensures c in s || c == SPACE
    decreases |s|
  {
    if c == SPACE || c == s[0] {
    } else if IsWhite(s[0]) {
      SquashBytes(s[RunLength(White, s)..], c);
    } else {
      SquashBytes(s[1..], c);
    }
  }

  lemma TokenUnmixed(mode: Mode, s: Str)
    requires s != []
    ensures Unmixed(s[..TokenLength(mode, s)])
  {
    var n := TokenLength(mode, s);
    if Contraction(s) > 0 {
      assert LESS_THAN !in s[..n];
    } else if !IsBlank(s[0]) {
      RunLongest(WordClass(mode, s[0]), s);
    } else if s[0] == SPACE && |s| > 1 && !IsBlank(s[1]) {
      var k := WordClass(mode, s[1]);
      RunLongest(k, s[1..]);
      assert forall i | 1 <= i < n :: s[i] == s[1..][i - 1] && Member(k, s[i]);
    } else {
      RunLongest(White, s);
    }
  }

  lemma {:induction false} PiecesUnmixed(mode: Mode, s: Str)
    ensures forall i | 0 <= i < |Pieces(mode, s)| :: Unmixed(Squash(Pieces(mode, s)[i])) && Pieces(mode, s)[i] != []
    decreases |s|
  {
    if s == [] {
    } else {
      var token := s[..TokenLength(mode, s)];
      TokenUnmixed(mode, s);
      if LESS_THAN in Squash(token) {
        SquashBytes(token, LESS_THAN);
        forall c | c in Squash(token) ensures !IsLetter(c) {
          SquashBytes(token, c);
        }
      }
      PiecesUnmixed(mode, s[TokenLength(mode, s)..]);
    }
  }
}
