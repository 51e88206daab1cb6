/**
 * What the kept white space is like: three laws one may expect of it, and for each, in terms of the bytes of a text,
 * exactly when the tokenizer obeys it.
 */
module WhiteSpaceLaws {
  import opened Bytes
  import opened Regex
  import opened PreTokenizing
  import opened KeptText
  import opened Sequences

  // ------------------------------------------------------- the three laws

  function Blanks(n: nat): Str {
    seq(n, _ => SPACE)
  }

  /** Spaces as an ordinary white run leaves them: two for an inner run of two or more, one for any other run. */
  function Collapse(s: Str): Str
    decreases |s|
  {
    if s == [] then []
    else if !IsWhite(s[0]) then [s[0]] + Collapse(s[1..])
    else Blanks(Collapsed(s)) + Collapse(s[RunLength(White, s)..])
  }

  function Collapsed(s: Str): nat {
    if RunLength(White, s) == 1 || RunLength(White, s) == |s| then 1 else 2
  }

  /**
   * The laws: every white run becomes a single space; every white run is collapsed as above; what is kept of a white
   * run is kept unchanged the next time.
   */
  datatype Law = SingleSpace | Collapsing | Lasting

  /**
   * The bytes at the front that match ` ?[\v\f]+`: punctuation to the token pattern, so that they go into one token,
   * and white space to the squashing.
   */
  function Glued(s: Str): (n: nat)
    ensures n <= |s|
  {
    if s != [] && s[0] == SPACE && VerticalLength(s[1..]) > 0 then 1 + VerticalLength(s[1..]) else VerticalLength(s)
  }

  /** Whether the white run at the front obeys the law. */
  predicate RunObeys(law: Law, s: Str) {
    var n, p := RunLength(White, s), Glued(s);
    var inner := n < |s|;
    match law
    case SingleSpace => n == 1 || p == n || (!inner && p == 0)
    case Collapsing =>
      n == 1 || p == 0 || (if inner then p < n && (n == p + 1 || Glued(s[p..]) == n - p) else p == n)
    case Lasting => n == 1 || p == 0 || p == n || (inner && (n == p + 1 || Glued(s[p..]) == n - p))
  }

  /** Whether every white run does. */
  predicate Obeys(law: Law, s: Str)
    decreases |s|
  {
    if s == [] then true
    else if !IsWhite(s[0]) then Obeys(law, s[1..])
    else RunObeys(law, s) && Obeys(law, s[RunLength(White, s)..])
  }

  // ------------------------------------------------------ counting the spaces

  /** How many spaces the white run at the front becomes. */
  function Spans(s: Str): nat
    decreases |s|
  {
    if s == [] || !IsWhite(s[0]) then 0 else 1 + Spans(s[SpanLength(s)..])
  }

  /** What the law asks of that number. */
  predicate Asked(law: Law, s: Str, spans: nat) {
    match law
    case SingleSpace => spans == 1
    case Collapsing => spans == Collapsed(s)
    case Lasting => spans <= (if RunLength(White, s) == |s| then 1 else 2)
  }

  lemma {:induction false} RunAfter(s: Str, m: nat)
    requires m <= RunLength(White, s)
    ensures RunLength(White, s[m..]) == RunLength(White, s) - m
  {
    if m == 0 {
    } else {
      RunAfter(s[1..], m - 1);
      assert s[1..][m - 1..] == s[m..];
    }
  }

  lemma BlanksMore(n: nat)
    ensures Blanks(1 + n) == [SPACE] + Blanks(n)
  {
  }

  lemma SpanUnfold(s: Str)
    requires s != [] && IsWhite(s[0])
    ensures Respace(s) == [SPACE] + Respace(s[SpanLength(s)..])
    ensures Spans(s) == 1 + Spans(s[SpanLength(s)..])
  {
  }

  /** The first span of a white run, and the rest of the run. */
  lemma FirstSpan(s: Str) returns (m: nat)
    requires s != [] && IsWhite(s[0])
    ensures 1 <= m <= RunLength(White, s)
    ensures Respace(s) == [SPACE] + Respace(s[m..]) && Spans(s) == 1 + Spans(s[m..])
    ensures s[m..][RunLength(White, s[m..])..] == s[RunLength(White, s)..]
  {
    hide *;
    m := SpanLength(s);
    SpanInRun(s);
    RunAfter(s, m);
    SpanUnfold(s);
    SliceTwice(s, m, RunLength(White, s));
  }

  /** A white run becomes one space for each of its spans. */
  lemma {:induction false} RespaceRun(s: Str)
    ensures Respace(s) == Blanks(Spans(s)) + Respace(s[RunLength(White, s)..])
    decreases |s|
  {
    if s == [] || !IsWhite(s[0]) {
      assert s[0..] == s;
    } else {
      hide *;
      var m := FirstSpan(s);
      RespaceRun(s[m..]);
      BlanksMore(Spans(s[m..]));
      Associates([SPACE], Blanks(Spans(s[m..])), Respace(s[RunLength(White, s)..]));
    }
  }

  /** A white byte with no white byte behind it is a span of its own. */
  lemma LoneSpan(s: Str)
    requires s != [] && IsWhite(s[0]) && RunLength(White, s) == 1
    ensures SpanLength(s) == 1 && Spans(s) == 1
  {
    SpanInRun(s);
    RunLongest(White, s);
  }

  lemma SpansStart(s: Str)
    requires s != [] && IsWhite(s[0])
    ensures Spans(s) > 0
  {
  }

  lemma VerticalStops(s: Str)
    ensures VerticalLength(s) < |s| ==> !IsVertical(s[VerticalLength(s)])
  {
  }

  lemma GluedInRun(s: Str)
    requires s != [] && IsWhite(s[0])
    ensures Glued(s) <= RunLength(White, s)
    ensures Glued(s) > 0 ==> SpanLength(s) == Glued(s)
    ensures Glued(s) == 0 ==> IsBlank(s[0])
    ensures 0 < Glued(s) < RunLength(White, s) ==> IsBlank(s[Glued(s)])
  {
    VerticalIsWhite(s);
    VerticalIsWhite(s[1..]);
    VerticalStops(s);
    VerticalStops(s[1..]);
    RunLongest(White, s);
    assert forall i | 0 <= i < RunLength(White, s) :: IsWhite(s[i]);
  }

  /** A run that is no `Glued` front becomes one space, or two when text follows and it is longer than one. */
  lemma OrdinarySpans(s: Str)
    requires s != [] && IsWhite(s[0]) && Glued(s) == 0
    ensures Spans(s) == Collapsed(s)
  {
    var n := RunLength(White, s);
    GluedInRun(s);
    RunLongest(White, s);
    if n == 1 {
      LoneSpan(s);
    } else {
      var m := SpanLength(s);
      assert m == WhiteLength(s);
      RunAfter(s, m);
      if n < |s| {
        assert s[m..][0] == s[m];
        LoneSpan(s[m..]);
      }
    }
  }

  lemma GluedSpans(s: Str)
    requires s != [] && IsWhite(s[0]) && Glued(s) > 0
    ensures var p := Glued(s);
      && p <= RunLength(White, s)
      && Spans(s) == 1 + Spans(s[p..])
      && RunLength(White, s[p..]) == RunLength(White, s) - p
      && (p < RunLength(White, s) ==> s[p..] != [] && IsWhite(s[p..][0]))
      && (p == RunLength(White, s) ==> Spans(s[p..]) == 0)
  {
    var p := Glued(s);
    GluedInRun(s);
    RunAfter(s, p);
    SpanUnfold(s);
    RunLongest(White, s);
    hide Glued, SpanLength, VerticalLength;
    assert p < |s| ==> s[p..][0] == s[p];
  }

  /** The number of spaces, from the bytes. */
  lemma SpansFromBytes(law: Law, s: Str)
    requires s != [] && IsWhite(s[0])
    ensures Asked(law, s, Spans(s)) <==> RunObeys(law, s)
  {
    var n, p := RunLength(White, s), Glued(s);
    RunStarts(s);
    if p == 0 {
      OrdinarySpans(s);
    } else {
      GluedSpans(s);
      if p < n {
        var t := s[p..];
        SpansStart(t);
        if Glued(t) == 0 {
          OrdinarySpans(t);
        } else {
          GluedSpans(t);
          if Glued(t) < n - p {
            SpansStart(t[Glued(t)..]);
          }
        }
      }
    }
    hide Spans, RunLength, Glued, IsWhite;
  }

  // ---------------------------------------------------- the laws, exactly

  predicate StartsBlack(s: Str) {
    s == [] || s[0] != SPACE
  }

  lemma FewerBlanks(i: nat, x: Str, j: nat, y: Str)
    requires i < j && StartsBlack(x)
    ensures Blanks(i) + x != Blanks(j) + y
  {
    var t, u := Blanks(i) + x, Blanks(j) + y;
    assert u[i] == SPACE;
    assert x != [] ==> t[i] == x[0];
  }

  lemma BlanksApart(i: nat, x: Str, j: nat, y: Str)
    requires StartsBlack(x) && StartsBlack(y)
    ensures Blanks(i) + x == Blanks(j) + y <==> i == j && x == y
  {
    if i < j {
      FewerBlanks(i, x, j, y);
    } else if j < i {
      FewerBlanks(j, y, i, x);
    } else {
      assert (Blanks(i) + x)[i..] == x && (Blanks(i) + y)[i..] == y;
    }
  }

  lemma KeepsBlackStart(s: Str)
    requires s == [] || !IsWhite(s[0])
    ensures StartsBlack(Respace(s)) && StartsBlack(Collapse(s)) && StartsBlack(Squash(s))
  {
  }

  /** White space is kept as `Collapse` has it exactly when every white run obeys the law. */
  lemma {:induction false} RespaceIsCollapse(s: Str)
    ensures Respace(s) == Collapse(s) <==> Obeys(Collapsing, s)
    decreases |s|
  {
    if s == [] {
    } else if !IsWhite(s[0]) {
      RespaceIsCollapse(s[1..]);
      hide IsWhite;
      assert Respace(s)[1..] == Respace(s[1..]) && Collapse(s)[1..] == Collapse(s[1..]);
    } else {
      var rest := s[RunLength(White, s)..];
      RespaceRun(s);
      RunStarts(s);
      RespaceIsCollapse(rest);
      RunLongest(White, s);
      KeepsBlackStart(rest);
      SpansFromBytes(Collapsing, s);
      BlanksApart(Spans(s), Respace(rest), Collapsed(s), Collapse(rest));
      hide IsWhite, RunLength, Spans, Collapsed, Blanks, Respace, RunObeys;
    }
  }

  /** Every white run is kept as a single space exactly when every white run obeys that law. */
  lemma {:induction false} RespaceIsSquash(s: Str)
    ensures Respace(s) == Squash(s) <==> Obeys(SingleSpace, s)
    decreases |s|
  {
    if s == [] {
    } else if !IsWhite(s[0]) {
      RespaceIsSquash(s[1..]);
      hide IsWhite;
      assert Respace(s)[1..] == Respace(s[1..]) && Squash(s)[1..] == Squash(s[1..]);
    } else {
      var rest := s[RunLength(White, s)..];
      RespaceRun(s);
      RunStarts(s);
      RespaceIsSquash(rest);
      RunLongest(White, s);
      KeepsBlackStart(rest);
      SpansFromBytes(SingleSpace, s);
      assert Blanks(1) == [SPACE];
      BlanksApart(Spans(s), Respace(rest), 1, Squash(rest));
      hide IsWhite, RunLength, Spans, Blanks, Respace, RunObeys;
    }
  }

  /** A run of `n` spaces is left alone exactly when it is meant to be `n` spaces. */
  lemma CollapseBlanks(n: nat, rest: Str)
    requires n > 0 && (rest != [] ==> !IsWhite(rest[0]))
    ensures Collapse(Blanks(n) + rest) == Blanks(if n == 1 || rest == [] then 1 else 2) + Collapse(rest)
  {
    var all := Blanks(n) + rest;
    assert all[n..] == rest;
    RunIs(White, all, n);
  }

  lemma CollapseFirst(c: Byte, rest: Str)
    requires !IsWhite(c)
    ensures Collapse([c] + rest) == [c] + Collapse(rest)
    ensures [c] + Collapse(rest) == [c] + rest <==> Collapse(rest) == rest
  {
  }

  /** Collapsing what is kept changes nothing exactly when every white run obeys the third law. */
  lemma {:induction false} CollapseRespace(s: Str)
    ensures Collapse(Respace(s)) == Respace(s) <==> Obeys(Lasting, s)
    decreases |s|
  {
    if s == [] {
    } else if !IsWhite(s[0]) {
      CollapseRespace(s[1..]);
      CollapseFirst(s[0], Respace(s[1..]));
    } else {
      var rest := s[RunLength(White, s)..];
      RespaceRun(s);
      SpansStart(s);
      RunStarts(s);
      CollapseRespace(rest);
      RunLongest(White, s);
      RespaceNoVertical(rest);
      CollapseBlanks(Spans(s), Respace(rest));
      KeepsBlackStart(rest);
      KeepsBlackStart(Respace(rest));
      SpansFromBytes(Lasting, s);
      var kept: nat := if Spans(s) == 1 || rest == [] then 1 else 2;
      BlanksApart(kept, Collapse(Respace(rest)), Spans(s), Respace(rest));
      hide IsWhite, RunLength, Spans, Blanks, Respace, RunObeys;
      RespaceNothing();
    }
  }

  lemma NoGlue(s: Str)
    requires NoVerticalWhite(s)
    ensures Glued(s) == 0
  {
    assert s != [] ==> NoVerticalWhite(s[1..]);
  }

  /** Without vertical tab and form feed white space is always collapsed. */
  lemma {:induction false} NoVerticalCollapses(s: Str)
    requires NoVerticalWhite(s)
    ensures Obeys(Collapsing, s)
    decreases |s|
  {
    if s == [] {
    } else if !IsWhite(s[0]) {
      NoVerticalCollapses(s[1..]);
    } else {
      NoGlue(s);
      RunStarts(s);
      hide RunLength, Glued;
      NoVerticalCollapses(s[RunLength(White, s)..]);
    }
  }

  /** The kept text is kept as it is the next time exactly when every white run of the text obeys the third law. */
  lemma KeptIdempotent(norm: Normalization, t: Str)
    ensures Kept(norm, Kept(norm, t)) == Kept(norm, t) <==> Obeys(Lasting, Normalize(norm, t))
  {
    var s := Normalize(norm, t);
    hide Respace, Collapse, Obeys;
    if norm.LOWERCASE? {
      LowerRespace(t);
    }
    RespaceNoVertical(s);
    NoVerticalCollapses(Respace(s));
    RespaceIsCollapse(Respace(s));
    CollapseRespace(s);
  }

  /** White space that obeys either of the first two laws obeys the third. */
  lemma {:induction false} ObeyedLasts(law: Law, s: Str)
    requires Obeys(law, s)
    ensures Obeys(Lasting, s)
    decreases |s|
  {
    if s == [] {
    } else if !IsWhite(s[0]) {
      ObeyedLasts(law, s[1..]);
    } else {
      RunStarts(s);
      hide RunLength, Glued;
      ObeyedLasts(law, s[RunLength(White, s)..]);
    }
  }

  // -------------------------------------------------- inputs that break them

  const A: Byte := 0x61
  const B: Byte := 0x62

  lemma AfterLetter(c: Byte, rest: Str)
    requires !IsWhite(c)
    ensures Respace([c] + rest) == [c] + Respace(rest)
    ensures Collapse([c] + rest) == [c] + Collapse(rest)
    ensures Squash([c] + rest) == [c] + Squash(rest)
  {
    assert ([c] + rest)[1..] == rest;
  }

  /** A lone letter. */
  lemma OnlyLetter(c: Byte)
    requires !IsWhite(c)
    ensures Respace([c]) == [c] && Collapse([c]) == [c] && Squash([c]) == [c]
  {
    AfterLetter(c, []);
    RespaceNothing();
    assert [c] + [] == [c];
  }

  /** A white run and a letter behind it. */
  lemma RunThenB(run: Str)
    requires run != [] && forall i | 0 <= i < |run| :: IsWhite(run[i])
    ensures RunLength(White, run + [B]) == |run|
    ensures Respace(run + [B]) == Blanks(Spans(run + [B])) + [B]
    ensures Collapse(run + [B]) == Blanks(if |run| == 1 then 1 else 2) + [B]
    ensures Squash(run + [B]) == [SPACE] + [B]
  {
    var s := run + [B];
    RunIs(White, s, |run|);
    assert s[|run|..] == [B] && s[0] == run[0];
    RespaceRun(s);
    OnlyLetter(B);
  }

  /** `a`, two spaces, `b` keeps both spaces, where a single one is promised for every white run. */
  lemma TwoSpacesSurvive()
    ensures Respace([A, SPACE, SPACE, B]) == [A, SPACE, SPACE, B]
    ensures Squash([A, SPACE, SPACE, B]) == [A, SPACE, B]
  {
    var run: Str := [SPACE, SPACE];
    RunThenB(run);
    assert Glued(run + [B]) == 0;
    OrdinarySpans(run + [B]);
    AfterLetter(A, run + [B]);
    assert [A] + (run + [B]) == [A, SPACE, SPACE, B];
    assert Blanks(2) == [SPACE, SPACE];
  }

  /** `a`, two vertical tabs, `b` keeps a single space, where two ordinary white bytes would keep two. */
  lemma VerticalTabsMerge()
    ensures Respace([A, VT, VT, B]) == [A, SPACE, B]
    ensures Collapse([A, VT, VT, B]) == [A, SPACE, SPACE, B]
  {
    var run: Str := [VT, VT];
    RunThenB(run);
    GlueOf(run, [B]);
    GluedSpans(run + [B]);
    AfterLetter(A, run + [B]);
    assert [A] + (run + [B]) == [A, VT, VT, B];
    assert Blanks(2) == [SPACE, SPACE] && Blanks(1) == [SPACE];
  }

  /** The length of ` ?[\v\f]+` in front of something else. */
  lemma GlueOf(front: Str, rest: Str)
    requires front == [VT, VT] || front == [SPACE, VT]
    requires rest != [] && !IsVertical(rest[0])
    ensures Glued(front + rest) == 2
  {
    var s := front + rest;
    assert s[1..] == [VT] + rest && ([VT] + rest)[1..] == rest;
    assert VerticalLength([VT] + rest) == 1;
  }

  const PAIR: Str := [SPACE, VT]

  /** What may stand behind such a pair: a letter, or another pair. */
  predicate BehindPair(rest: Str) {
    rest != [] && !IsVertical(rest[0]) && (IsWhite(rest[0]) || Spans(rest) == 0)
  }

  /** One more pair is one more span. */
  lemma PairSpans(rest: Str)
    requires BehindPair(rest)
    ensures BehindPair(PAIR + rest) && Spans(PAIR + rest) == 1 + Spans(rest)
  {
    var s := PAIR + rest;
    GlueOf(PAIR, rest);
    assert s[2..] == rest && s != [] && s[0] == SPACE;
    hide Glued, RunLength, VerticalLength;
    GluedSpans(s);
  }

  lemma LetterBehindPair()
    ensures BehindPair([B]) && Spans([B]) == 0
  {
  }

  lemma PairsWhite()
    ensures var run := PAIR + (PAIR + PAIR); run != [] && forall i | 0 <= i < |run| :: IsWhite(run[i])
  {
  }

  lemma PairsRegrouped(rest: Str)
    ensures PAIR + (PAIR + PAIR) + rest == PAIR + (PAIR + (PAIR + rest))
  {
    Associates(PAIR, PAIR + PAIR, rest);
    Associates(PAIR, PAIR, rest);
  }

  lemma ThreePairs()
    ensures Respace(PAIR + (PAIR + PAIR) + [B]) == Blanks(3) + [B]
  {
    hide *;
    PairsWhite();
    RunThenB(PAIR + (PAIR + PAIR));
    LetterBehindPair();
    PairSpans([B]);
    PairSpans(PAIR + [B]);
    PairSpans(PAIR + (PAIR + [B]));
    PairsRegrouped([B]);
  }

  lemma ThreeBlanks()
    ensures Respace(Blanks(3) + [B]) == Blanks(2) + [B]
  {
    RunThenB(Blanks(3));
    assert NoVerticalWhite(Blanks(3) + [B]);
    NoGlue(Blanks(3) + [B]);
    OrdinarySpans(Blanks(3) + [B]);
  }

  /** `a`, three times a space and a vertical tab, `b`: three spaces are kept, and two of them the next time. */
  lemma ThreeSpansShrink()
    ensures Kept(CASED, [A] + (PAIR + (PAIR + PAIR) + [B])) == [A] + (Blanks(3) + [B])
    ensures Kept(CASED, [A] + (Blanks(3) + [B])) == [A] + (Blanks(2) + [B])
  {
    ThreePairs();
    ThreeBlanks();
    AfterLetter(A, PAIR + (PAIR + PAIR) + [B]);
    AfterLetter(A, Blanks(3) + [B]);
    hide Respace, Blanks, PAIR;
  }
}
