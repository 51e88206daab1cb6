/**
 * The two pre-tokenization patterns as regular expressions, with the ordered-choice, greedy, backtracking
 * meaning of ECMAScript: a match at the front of a text is a list of lengths, preferred one first.
 */
module Regex {
  import opened Bytes
  import opened Units

  datatype Class =
    | Letter            // [A-Za-z]
    | LetterOrHigh      // [\x80-\xFFa-zA-Z]
    | Digit             // [0-9]
    | Other             // [^ \t\r\nA-Za-z0-9]
    | OtherLow          // [^ \t\r\na-zA-Z0-9\x80-\xFF]
    | White             // \s
    | NonWhite          // \S

  predicate IsLetter(c: Byte) {
    0x41 <= c <= 0x5A || 0x61 <= c <= 0x7A
  }

  predicate IsDigit(c: Byte) {
    0x30 <= c <= 0x39
  }

  /** The four blanks the negated classes list. */
  predicate IsBlank(c: Byte) {
    c == SPACE || c == TAB || c == CR || c == LF
  }

  /** What `\s` matches: the blanks, vertical tab and form feed. */
  predicate IsWhite(c: Byte) {
    IsBlank(c) || c == VT || c == FF
  }

  predicate Member(k: Class, c: Byte) {
    match k
    case Letter => IsLetter(c)
    case LetterOrHigh => IsLetter(c) || c >= 0x80
    case Digit => IsDigit(c)
    case Other => !IsBlank(c) && !IsLetter(c) && !IsDigit(c)
    case OtherLow => !IsBlank(c) && !IsLetter(c) && !IsDigit(c) && c < 0x80
    case White => IsWhite(c)
    case NonWhite => !IsWhite(c)
  }

  datatype Regex =
    | Char(c: Byte)
    | Run(k: Class)                       // k+, greedy
    | Maybe(r: Regex)                     // r?, greedy
    | Then(first: Regex, second: Regex)
    | Either(left: Regex, right: Regex)   // left tried first
    | NotBefore(k: Class)                 // (?!k)

  /** Bytes of the class at the front. */
  function RunLength(k: Class, s: Str): (n: nat)
    ensures n <= |s|
  {
    if s != [] && Member(k, s[0]) then 1 + RunLength(k, s[1..]) else 0
  }

  /** The run is the longest one. */
  lemma {:induction false} RunLongest(k: Class, s: Str)
    ensures forall i | 0 <= i < RunLength(k, s) :: Member(k, s[i])
    ensures RunLength(k, s) < |s| ==> !Member(k, s[RunLength(k, s)])
  {
    if s == [] || !Member(k, s[0]) {
    } else {
      RunLongest(k, s[1..]);
      forall i | 0 <= i < RunLength(k, s) ensures Member(k, s[i]) {
        assert i > 0 ==> s[i] == s[1..][i - 1];
      }
    }
  }

  lemma RunIs(k: Class, s: Str, n: nat)
    requires n <= |s| && forall i | 0 <= i < n :: Member(k, s[i])
    requires n < |s| ==> !Member(k, s[n])
    ensures RunLength(k, s) == n
  {
    hide Member;
    RunLongest(k, s);
  }

  /** The lengths a pattern can match at the front of `s`, in the order a backtracking matcher tries them. */
  function Matches(r: Regex, s: Str): (ends: seq<nat>)
    ensures forall i | 0 <= i < |ends| :: ends[i] <= |s|
    decreases r, 0
  {
    match r
    case Char(c) => if s != [] && s[0] == c then [1] else []
    case Run(k) => var n := RunLength(k, s); seq(n, i requires 0 <= i < n => n - i)
    case Maybe(a) => Matches(a, s) + [0]
    case Then(a, b) => Continue(Matches(a, s), b, s)
    case Either(a, b) => Matches(a, s) + Matches(b, s)
    case NotBefore(k) => if s != [] && Member(k, s[0]) then [] else [0]
  }

  function Continue(starts: seq<nat>, r: Regex, s: Str): (ends: seq<nat>)
    requires forall i | 0 <= i < |starts| :: starts[i] <= |s|
    ensures forall i | 0 <= i < |ends| :: ends[i] <= |s|
    decreases r, 1, |starts|
  {
    if starts == [] then []
    else
      var more := Matches(r, s[starts[0]..]);
      seq(|more|, i requires 0 <= i < |more| => starts[0] + more[i]) + Continue(starts[1..], r, s)
  }

  function Literal(t: Str): Regex
    requires t != []
  {
    if |t| == 1 then Char(t[0]) else Then(Char(t[0]), Literal(t[1..]))
  }

  function SpacedRun(k: Class): Regex {
    Then(Maybe(Char(SPACE)), Run(k))
  }

  function LetterClass(mode: Mode): Class {
    if mode.UNICODE? then LetterOrHigh else Letter
  }

  function OtherClass(mode: Mode): Class {
    if mode.UNICODE? then OtherLow else Other
  }

  // The contractions: 's 't 're 've 'm 'll 'd.
  const Q: Byte := QUOTE
  const APOSTROPHE_S: Str := [Q, 0x73]
  const APOSTROPHE_T: Str := [Q, 0x74]
  const APOSTROPHE_RE: Str := [Q, 0x72, 0x65]
  const APOSTROPHE_VE: Str := [Q, 0x76, 0x65]
  const APOSTROPHE_M: Str := [Q, 0x6D]
  const APOSTROPHE_LL: Str := [Q, 0x6C, 0x6C]
  const APOSTROPHE_D: Str := [Q, 0x64]

  /** Both patterns, alternative by alternative; only the two classes differ. */
  function TokenPattern(mode: Mode): Regex {
    Either(Literal(APOSTROPHE_S), Either(Literal(APOSTROPHE_T), Either(Literal(APOSTROPHE_RE), Either(Literal(APOSTROPHE_VE),
    Either(Literal(APOSTROPHE_M), Either(Literal(APOSTROPHE_LL), Either(Literal(APOSTROPHE_D), WordPattern(mode))))))))
  }

  function WordPattern(mode: Mode): Regex {
    Either(SpacedRun(LetterClass(mode)), Either(SpacedRun(Digit), Either(SpacedRun(OtherClass(mode)),
    Either(Then(Run(White), NotBefore(NonWhite)), Run(White)))))
  }

  /** How the program writes the classes and patterns. */
  function ClassText(k: Class): string {
    match k
    case Letter => "[A-Za-z]"
    case LetterOrHigh => "[\\x80-\\xFFa-zA-Z]"
    case Digit => "[0-9]"
    case Other => "[^ \\t\\r\\nA-Za-z0-9]"
    case OtherLow => "[^ \\t\\r\\na-zA-Z0-9\\x80-\\xFF]"
    case White => "\\s"
    case NonWhite => "\\S"
  }

  function PatternText(r: Regex): string {
    match r
    case Char(c) => [c as int as char]
    case Run(k) => ClassText(k) + "+"
    case Maybe(a) => PatternText(a) + "?"
    case Then(a, b) => PatternText(a) + PatternText(b)
    case Either(a, b) => PatternText(a) + "|" + PatternText(b)
    case NotBefore(k) => "(?!" + ClassText(k) + ")"
  }

  lemma ContractionTexts()
    ensures PatternText(Literal(APOSTROPHE_S)) == "'s" && PatternText(Literal(APOSTROPHE_T)) == "'t"
    ensures PatternText(Literal(APOSTROPHE_RE)) == "'re" && PatternText(Literal(APOSTROPHE_VE)) == "'ve"
    ensures PatternText(Literal(APOSTROPHE_M)) == "'m" && PatternText(Literal(APOSTROPHE_LL)) == "'ll"
    ensures PatternText(Literal(APOSTROPHE_D)) == "'d"
  {
    LiteralTwo(APOSTROPHE_S);
    LiteralTwo(APOSTROPHE_T);
    LiteralTwo(APOSTROPHE_M);
    LiteralTwo(APOSTROPHE_D);
    LiteralThree(APOSTROPHE_RE);
    LiteralThree(APOSTROPHE_VE);
    LiteralThree(APOSTROPHE_LL);
    hide Literal;
  }

  lemma LiteralTwo(t: Str)
    requires |t| == 2
    ensures PatternText(Literal(t)) == [t[0] as int as char, t[1] as int as char]
  {
    assert t[1..] == [t[1]];
  }

  lemma LiteralThree(t: Str)
    requires |t| == 3
    ensures PatternText(Literal(t)) == [t[0] as int as char, t[1] as int as char, t[2] as int as char]
  {
    LiteralTwo(t[1..]);
  }

  lemma SpacedText(k: Class)
    ensures PatternText(SpacedRun(k)) == " ?" + ClassText(k) + "+"
  {
    hide ClassText;
  }

  /** The alternatives of a pattern, in the order they are tried. */
  function Alternatives(r: Regex): seq<string> {
    if r.Either? then [PatternText(r.left)] + Alternatives(r.right) else [PatternText(r)]
  }

  /** The seven contractions, and then the alternatives that depend on the mode. */
  function Written(letters: string, others: string): seq<string> {
    ["'s"] + (["'t"] + (["'re"] + (["'ve"] + (["'m"] + (["'ll"] + (["'d"] + WrittenWords(letters, others)))))))
  }

  function WrittenWords(letters: string, others: string): seq<string> {
    [" ?" + letters + "+"] + ([" ?[0-9]+"] + ([" ?" + others + "+"] + (["\\s+(?!\\S)"] + ["\\s+"])))
  }

  lemma FirstAlternative(a: Regex, b: Regex, text: string, rest: seq<string>)
    requires PatternText(a) == text && Alternatives(b) == rest
    ensures Alternatives(Either(a, b)) == [text] + rest
  {
  }

  lemma WhiteTexts()
    ensures PatternText(Then(Run(White), NotBefore(NonWhite))) == "\\s+(?!\\S)"
    ensures Alternatives(Run(White)) == ["\\s+"]
  {
    var run, ahead := PatternText(Run(White)), PatternText(NotBefore(NonWhite));
    assert run == "\\s+";
    assert ahead == "(?!\\S)";
    assert run + ahead == "\\s+(?!\\S)";
  }

  lemma DigitText()
    ensures PatternText(SpacedRun(Digit)) == " ?[0-9]+"
  {
    SpacedText(Digit);
    hide SpacedRun, PatternText;
  }

  lemma WordAlternatives(mode: Mode)
    ensures Alternatives(WordPattern(mode)) == WrittenWords(ClassText(LetterClass(mode)), ClassText(OtherClass(mode)))
  {
    var letters, others := LetterClass(mode), OtherClass(mode);
    SpacedText(letters);
    DigitText();
    SpacedText(others);
    WhiteTexts();
    hide SpacedRun, PatternText, ClassText, Alternatives;
    var last := Either(Then(Run(White), NotBefore(NonWhite)), Run(White));
    FirstAlternative(Then(Run(White), NotBefore(NonWhite)), Run(White), "\\s+(?!\\S)", ["\\s+"]);
    FirstAlternative(SpacedRun(others), last, " ?" + ClassText(others) + "+", Alternatives(last));
    var digits := Either(SpacedRun(others), last);
    FirstAlternative(SpacedRun(Digit), digits, " ?[0-9]+", Alternatives(digits));
    var words := Either(SpacedRun(Digit), digits);
    FirstAlternative(SpacedRun(letters), words, " ?" + ClassText(letters) + "+", Alternatives(words));
  }

  /** The alternatives of the two patterns are, letter by letter and in this order, those of the program. */
  lemma PatternsAsWritten()
    ensures Alternatives(TokenPattern(ASCII)) == Written("[A-Za-z]", "[^ \\t\\r\\nA-Za-z0-9]")
    ensures Alternatives(TokenPattern(UNICODE)) ==
            Written("[\\x80-\\xFFa-zA-Z]", "[^ \\t\\r\\na-zA-Z0-9\\x80-\\xFF]")
  {
    TokenAlternatives(ASCII);
    TokenAlternatives(UNICODE);
    hide TokenPattern, WrittenWords, Written;
  }

  lemma TokenAlternatives(mode: Mode)
    ensures Alternatives(TokenPattern(mode)) == Written(ClassText(LetterClass(mode)), ClassText(OtherClass(mode)))
  {
    ContractionTexts();
    WordAlternatives(mode);
    hide PatternText, ClassText, Alternatives, Literal, WordPattern, WrittenWords;
    var p0 := WordPattern(mode);
    var p1 := Either(Literal(APOSTROPHE_D), p0);
    var p2 := Either(Literal(APOSTROPHE_LL), p1);
    var p3 := Either(Literal(APOSTROPHE_M), p2);
    var p4 := Either(Literal(APOSTROPHE_VE), p3);
    var p5 := Either(Literal(APOSTROPHE_RE), p4);
    var p6 := Either(Literal(APOSTROPHE_T), p5);
    FirstAlternative(Literal(APOSTROPHE_D), p0, "'d", Alternatives(p0));
    FirstAlternative(Literal(APOSTROPHE_LL), p1, "'ll", Alternatives(p1));
    FirstAlternative(Literal(APOSTROPHE_M), p2, "'m", Alternatives(p2));
    FirstAlternative(Literal(APOSTROPHE_VE), p3, "'ve", Alternatives(p3));
    FirstAlternative(Literal(APOSTROPHE_RE), p4, "'re", Alternatives(p4));
    FirstAlternative(Literal(APOSTROPHE_T), p5, "'t", Alternatives(p5));
    FirstAlternative(Literal(APOSTROPHE_S), p6, "'s", Alternatives(p6));
  }

  /** The classes as their texts have them. */
  lemma ClassesAsWritten(c: Byte)
    ensures var i := c as int;
      var letter := 'A' as int <= i <= 'Z' as int || 'a' as int <= i <= 'z' as int;
      var digit := '0' as int <= i <= '9' as int;
      var blank := i in {' ' as int, '\t' as int, '\r' as int, '\n' as int};
      && (Member(Letter, c) <==> letter)
      && (Member(LetterOrHigh, c) <==> letter || 0x80 <= i <= 0xFF)
      && (Member(Digit, c) <==> digit)
      && (Member(Other, c) <==> !blank && !letter && !digit)
      && (Member(OtherLow, c) <==> !blank && !letter && !digit && !(0x80 <= i <= 0xFF))
      && (Member(White, c) <==> blank || i == 0x0B || i == 0x0C)
      && (Member(NonWhite, c) <==> !Member(White, c))
  {
  }

  // ---------------------------------------------------------- the scanner

  /** Length of the contraction at the front, 0 if there is none. */
  function Contraction(s: Str): (n: nat)
    ensures n <= |s|
  {
    if APOSTROPHE_S <= s || APOSTROPHE_T <= s || APOSTROPHE_M <= s || APOSTROPHE_D <= s then 2
    else if APOSTROPHE_RE <= s || APOSTROPHE_VE <= s || APOSTROPHE_LL <= s then 3
    else 0
  }

  /** The class, among the three word classes, of a byte that is no blank. */
  function WordClass(mode: Mode, c: Byte): (k: Class)
    requires !IsBlank(c)
    ensures Member(k, c)
  {
    if Member(LetterClass(mode), c) then LetterClass(mode)
    else if IsDigit(c) then Digit
    else OtherClass(mode)
  }

  /** What a token takes of the white run at the front: all of it, unless it is longer than one and text follows. */
  function WhiteLength(s: Str): (n: nat)
    requires s != [] && IsWhite(s[0])
    ensures 1 <= n <= |s|
  {
    var n := RunLength(White, s);
    if n == |s| || n == 1 then n else n - 1
  }

  /** Length of the next token, found by looking at most one byte past a run. */
  function TokenLength(mode: Mode, s: Str): (n: nat)
    requires s != []
    ensures 1 <= n <= |s|
  {
    if Contraction(s) > 0 then Contraction(s)
    else if !IsBlank(s[0]) then RunLength(WordClass(mode, s[0]), s)
    else if s[0] == SPACE && |s| > 1 && !IsBlank(s[1]) then 1 + RunLength(WordClass(mode, s[1]), s[1..])
    else WhiteLength(s)
  }

  // ------------------------------------------- the scanner is the pattern

  lemma {:induction false} LiteralMatches(t: Str, s: Str)
    requires t != []
    ensures Matches(Literal(t), s) == if t <= s then [|t|] else []
  {
    if |t| == 1 {
    } else {
      if s != [] && s[0] == t[0] {
        LiteralMatches(t[1..], s[1..]);
        PrefixBehindFirst(t, s);
        assert Matches(Char(t[0]), s) == [1];
        ContinueOne(1, Literal(t[1..]), s);
      } else {
        assert Matches(Char(t[0]), s) == [];
      }
    }
  }

  lemma PrefixBehindFirst(t: Str, s: Str)
    requires t != [] && s != [] && t[0] == s[0]
    ensures t[1..] <= s[1..] <==> t <= s
  {
    assert t == [t[0]] + t[1..] && s == [s[0]] + s[1..];
  }

  lemma ContinueOne(n: nat, r: Regex, s: Str)
    requires n <= |s|
    ensures var more := Matches(r, s[n..]);
      Continue([n], r, s) == seq(|more|, i requires 0 <= i < |more| => n + more[i])
  {
  }

  /** A pattern matches the front of `s`, preferring length `n`. */
  predicate Prefers(r: Regex, s: Str, n: nat) {
    Matches(r, s) != [] && Matches(r, s)[0] == n
  }

  predicate Fails(r: Regex, s: Str) {
    Matches(r, s) == []
  }

  /** Length of ` ?k+` at the front, 0 if it does not match. */
  function SpacedLength(k: Class, s: Str): nat
    requires s != []
  {
    if Member(k, s[0]) then RunLength(k, s)
    else if s[0] == SPACE && |s| > 1 && Member(k, s[1]) then 1 + RunLength(k, s[1..])
    else 0
  }

  lemma SpacedRunMatches(k: Class, s: Str)
    requires !Member(k, SPACE) && s != []
    ensures if SpacedLength(k, s) == 0 then Fails(SpacedRun(k), s) else Prefers(SpacedRun(k), s, SpacedLength(k, s))
  {
    RunFromHere(k, s);
    if s[0] == SPACE {
      hide Member;
      assert Matches(Maybe(Char(SPACE)), s) == [1, 0];
      assert [1, 0][1..] == [0];
      ContinueOne(1, Run(k), s);
      assert Matches(SpacedRun(k), s) == Continue([1], Run(k), s) + [];
      assert |s| > 1 ==> s[1..][0] == s[1];
    } else {
      assert Matches(Maybe(Char(SPACE)), s) == [0];
    }
  }

  lemma RunFromHere(k: Class, s: Str)
    ensures Continue([0], Run(k), s) == Matches(Run(k), s)
  {
  }

  /** `\s+(?!\S)`: the longest white prefix with white or nothing behind it. */
  lemma {:induction false} WhiteLookaheadMatches(s: Str, starts: seq<nat>)
    requires forall i | 0 <= i < |starts| :: starts[i] == |starts| - i
    requires |starts| <= RunLength(White, s)
    ensures var n := RunLength(White, s);
      var ends := Continue(starts, NotBefore(NonWhite), s);
      var best: int := if |starts| == n && n < |s| then n - 1 else |starts|;
      if best > 0 then ends != [] && ends[0] == best else ends == []
    decreases |starts|
  {
    if starts == [] {
    } else {
      RunLongest(White, s);
      var n := RunLength(White, s);
      var first := starts[0];
      if |starts| == n && n < |s| {
        assert Matches(NotBefore(NonWhite), s[first..]) == [] by { assert s[first..][0] == s[n]; }
        WhiteLookaheadMatches(s, starts[1..]);
      } else {
        assert Matches(NotBefore(NonWhite), s[first..]) == [0] by {
          if first < |s| { assert s[first..][0] == s[first]; }
        }
      }
    }
  }

  lemma WhiteMatches(s: Str)
    requires s != [] && IsWhite(s[0])
    ensures var ends := Matches(Either(Then(Run(White), NotBefore(NonWhite)), Run(White)), s);
      ends != [] && ends[0] == WhiteLength(s)
  {
    WhiteLookaheadMatches(s, Matches(Run(White), s));
  }

  lemma EitherPrefers(left: Regex, right: Regex, s: Str, n: nat)
    requires Prefers(left, s, n) || (Fails(left, s) && Prefers(right, s, n))
    ensures Prefers(Either(left, right), s, n)
  {
  }

  lemma LiteralOr(t: Str, rest: Regex, s: Str, n: nat)
    requires t != []
    requires if t <= s then n == |t| else Prefers(rest, s, n)
    ensures Prefers(Either(Literal(t), rest), s, n)
  {
    LiteralMatches(t, s);
    EitherPrefers(Literal(t), rest, s, n);
  }

  /** The hand-written scanner takes exactly the match the pattern prefers, and there always is one. */
  lemma ScannerIsPattern(mode: Mode, s: Str)
    requires s != []
    ensures Prefers(TokenPattern(mode), s, TokenLength(mode, s))
  {
    var n := TokenLength(mode, s);
    var p0 := WordPattern(mode);
    if Contraction(s) == 0 {
      WordScannerIsPattern(mode, s);
    }
    var p1 := Either(Literal(APOSTROPHE_D), p0);
    var p2 := Either(Literal(APOSTROPHE_LL), p1);
    var p3 := Either(Literal(APOSTROPHE_M), p2);
    var p4 := Either(Literal(APOSTROPHE_VE), p3);
    var p5 := Either(Literal(APOSTROPHE_RE), p4);
    var p6 := Either(Literal(APOSTROPHE_T), p5);
    ContractionLength(s);
    if APOSTROPHE_D <= s || Contraction(s) == 0 { LiteralOr(APOSTROPHE_D, p0, s, n); }
    if APOSTROPHE_LL <= s || Prefers(p1, s, n) { LiteralOr(APOSTROPHE_LL, p1, s, n); }
    if APOSTROPHE_M <= s || Prefers(p2, s, n) { LiteralOr(APOSTROPHE_M, p2, s, n); }
    if APOSTROPHE_VE <= s || Prefers(p3, s, n) { LiteralOr(APOSTROPHE_VE, p3, s, n); }
    if APOSTROPHE_RE <= s || Prefers(p4, s, n) { LiteralOr(APOSTROPHE_RE, p4, s, n); }
    if APOSTROPHE_T <= s || Prefers(p5, s, n) { LiteralOr(APOSTROPHE_T, p5, s, n); }
    LiteralOr(APOSTROPHE_S, p6, s, n);
  }

  lemma ContractionLength(s: Str)
    ensures APOSTROPHE_S <= s ==> Contraction(s) == |APOSTROPHE_S|
    ensures APOSTROPHE_T <= s ==> Contraction(s) == |APOSTROPHE_T|
    ensures APOSTROPHE_RE <= s ==> Contraction(s) == |APOSTROPHE_RE|
    ensures APOSTROPHE_VE <= s ==> Contraction(s) == |APOSTROPHE_VE|
    ensures APOSTROPHE_M <= s ==> Contraction(s) == |APOSTROPHE_M|
    ensures APOSTROPHE_LL <= s ==> Contraction(s) == |APOSTROPHE_LL|
    ensures APOSTROPHE_D <= s ==> Contraction(s) == |APOSTROPHE_D|
  {
    if APOSTROPHE_RE <= s { assert s[1] == 0x72; }
    if APOSTROPHE_VE <= s { assert s[1] == 0x76; }
    if APOSTROPHE_LL <= s { assert s[1] == 0x6C; }
  }

  lemma WordScannerIsPattern(mode: Mode, s: Str)
    requires s != [] && Contraction(s) == 0
    ensures Prefers(WordPattern(mode), s, TokenLength(mode, s))
  {
    var n := TokenLength(mode, s);
    var letters, digits, others := SpacedRun(LetterClass(mode)), SpacedRun(Digit), SpacedRun(OtherClass(mode));
    var white := Either(Then(Run(White), NotBefore(NonWhite)), Run(White));
    SpacedRunMatches(LetterClass(mode), s);
    SpacedRunMatches(Digit, s);
    SpacedRunMatches(OtherClass(mode), s);
    WordChoice(mode, s);
    if Fails(letters, s) {
      if Fails(digits, s) {
        if Fails(others, s) {
          WhiteMatches(s);
        }
        EitherPrefers(others, white, s, n);
      }
      EitherPrefers(digits, Either(others, white), s, n);
    }
    EitherPrefers(letters, Either(digits, Either(others, white)), s, n);
  }

  /** At most one of the three word alternatives matches, and it is the one the scanner follows. */
  lemma WordChoice(mode: Mode, s: Str)
    requires s != [] && Contraction(s) == 0
    ensures var letters, digits, others :=
        SpacedLength(LetterClass(mode), s), SpacedLength(Digit, s), SpacedLength(OtherClass(mode), s);
      if letters > 0 then TokenLength(mode, s) == letters
      else if digits > 0 then TokenLength(mode, s) == digits
      else if others > 0 then TokenLength(mode, s) == others
      else IsBlank(s[0]) && !(s[0] == SPACE && |s| > 1 && !IsBlank(s[1]))
  {
  }
}
