/**
 * Writing a byte string as the inside of a JSON string, and the reading of RFC 8259, section 7, that takes it back.
 * Bytes and code points are bit vectors, as the bit masks of the original need.
 */
module JsonEscape {
  import opened Sequences

  type Octet = bv8
  type CodePoint = bv32

  const REPLACEMENT: CodePoint := 0xFFFD

  // ------------------------------------------------------ RFC 3629, section 4

  predicate Tail(b: Octet) {
    0x80 <= b <= 0xBF
  }

  predicate Two(a: Octet, b: Octet) {
    0xC2 <= a <= 0xDF && Tail(b)
  }

  predicate Three(a: Octet, b: Octet, c: Octet) {
    || (a == 0xE0 && 0xA0 <= b <= 0xBF && Tail(c))
    || (0xE1 <= a <= 0xEC && Tail(b) && Tail(c))
    || (a == 0xED && 0x80 <= b <= 0x9F && Tail(c))
    || (0xEE <= a <= 0xEF && Tail(b) && Tail(c))
  }

  predicate Four(a: Octet, b: Octet, c: Octet, d: Octet) {
    || (a == 0xF0 && 0x90 <= b <= 0xBF && Tail(c) && Tail(d))
    || (0xF1 <= a <= 0xF3 && Tail(b) && Tail(c) && Tail(d))
    || (a == 0xF4 && 0x80 <= b <= 0x8F && Tail(c) && Tail(d))
  }

  /** The length of the well-formed UTF-8 sequence that `s` begins with; 0 if there is none. */
  function SequenceLength(s: seq<Octet>): (n: nat)
    ensures n <= |s| && n <= 4
  {
    if |s| >= 1 && s[0] < 0x80 then 1
    else if |s| >= 2 && Two(s[0], s[1]) then 2
    else if |s| >= 3 && Three(s[0], s[1], s[2]) then 3
    else if |s| >= 4 && Four(s[0], s[1], s[2], s[3]) then 4
    else 0
  }

  // -------------------------------------------------- RFC 3629, section 3

  function Bits(b: Octet): CodePoint {
    (b & 0x3F) as CodePoint
  }

  function Code2(a: Octet, b: Octet): CodePoint {
    ((a & 0x1F) as CodePoint << 6) | Bits(b)
  }

  function Code3(a: Octet, b: Octet, c: Octet): CodePoint {
    ((a & 0x0F) as CodePoint << 12) | (Bits(b) << 6) | Bits(c)
  }

  function Code4(a: Octet, b: Octet, c: Octet, d: Octet): CodePoint {
    ((a & 0x07) as CodePoint << 18) | (Bits(b) << 12) | (Bits(c) << 6) | Bits(d)
  }

  /** The bit test of the original: the length announced by the lead byte, 0 for none. */
  function Announced(c: Octet): nat {
    if c & 0xE0 == 0xC0 then 2 else if c & 0xF0 == 0xE0 then 3 else if c & 0xF8 == 0xF0 then 4 else 0
  }

  function LeadBits(c: Octet): CodePoint {
    if c & 0xE0 == 0xC0 then (c & 0x1F) as CodePoint
    else if c & 0xF0 == 0xE0 then (c & 0x0F) as CodePoint
    else if c & 0xF8 == 0xF0 then (c & 0x07) as CodePoint
    else 0
  }

  predicate InRange(len: nat, cp: CodePoint) {
    && !(len == 2 && cp < 0x80) && !(len == 3 && cp < 0x800) && !(len == 4 && cp < 0x10000)
    && !(0xD800 <= cp <= 0xDFFF) && cp <= 0x10FFFF
  }

  function Shift(cp: CodePoint, b: Octet): CodePoint {
    (cp << 6) | Bits(b)
  }

  predicate Continues(b: Octet) {
    b & 0xC0 == 0x80
  }

  lemma TestTwo(a: Octet, b: Octet)
    ensures (Announced(a) == 2 && Continues(b) && InRange(2, Shift(LeadBits(a), b))) <==> Two(a, b)
  {
  }

  lemma TestThree(a: Octet, b: Octet, c: Octet)
    ensures (Announced(a) == 3 && Continues(b) && Continues(c) && InRange(3, Shift(Shift(LeadBits(a), b), c))) <==>
            Three(a, b, c)
  {
  }

  lemma TestFour(a: Octet, b: Octet, c: Octet, d: Octet)
    ensures (Announced(a) == 4 && Continues(b) && Continues(c) && Continues(d) &&
             InRange(4, Shift(Shift(Shift(LeadBits(a), b), c), d))) <==>
            Four(a, b, c, d)
  {
  }

  // ----------------------------------------------------------- code points

  /** The code point of the well-formed sequence `s`. */
  function CodeOf(s: seq<Octet>): CodePoint
    requires s != [] && SequenceLength(s) == |s|
  {
    if |s| == 1 then s[0] as CodePoint
    else if |s| == 2 then Code2(s[0], s[1])
    else if |s| == 3 then Code3(s[0], s[1], s[2])
    else Code4(s[0], s[1], s[2], s[3])
  }

  /** The code points of `s`, with U+FFFD for each byte that no well-formed sequence covers. */
  function Decode(s: seq<Octet>): seq<CodePoint> {
    var n := SequenceLength(s);
    if s == [] then []
    else if n == 0 then [REPLACEMENT] + Decode(s[1..])
    else [CodeOf(s[..n])] + Decode(s[n..])
  }

  predicate WellFormed(s: seq<Octet>) {
    s == [] || (SequenceLength(s) > 0 && WellFormed(s[SequenceLength(s)..]))
  }

  function Low(cp: CodePoint): Octet {
    ((cp & 0x3F) | 0x80) as Octet
  }

  function Lead2(cp: CodePoint): Octet
    requires cp < 0x800
  {
    ((cp >> 6) | 0xC0) as Octet
  }

  function Lead3(cp: CodePoint): Octet
    requires cp < 0x10000
  {
    ((cp >> 12) | 0xE0) as Octet
  }

  function Lead4(cp: CodePoint): Octet
    requires cp <= 0x10FFFF
  {
    ((cp >> 18) | 0xF0) as Octet
  }

  predicate Scalar(cp: CodePoint) {
    cp <= 0x10FFFF && !(0xD800 <= cp <= 0xDFFF)
  }

  /** The UTF-8 form of a code point up to U+10FFFF. */
  function Utf8(cp: CodePoint): seq<Octet>
    requires cp <= 0x10FFFF
  {
    if cp < 0x80 then [cp as Octet]
    else if cp < 0x800 then [Lead2(cp), Low(cp)]
    else if cp < 0x10000 then [Lead3(cp), Low(cp >> 6), Low(cp)]
    else [Lead4(cp), Low(cp >> 12), Low(cp >> 6), Low(cp)]
  }

  lemma Back3(a: Octet, b: Octet, c: Octet)
    requires Three(a, b, c)
    ensures var cp := Code3(a, b, c);
            0x800 <= cp < 0x10000 && Scalar(cp) && Lead3(cp) == a && Low(cp >> 6) == b && Low(cp) == c
  {
  }

  lemma Back4(a: Octet, b: Octet, c: Octet, d: Octet)
    requires Four(a, b, c, d)
    ensures var cp := Code4(a, b, c, d);
            && 0x10000 <= cp <= 0x10FFFF && Scalar(cp)
            && Lead4(cp) == a && Low(cp >> 12) == b && Low(cp >> 6) == c && Low(cp) == d
  {
  }

  lemma Round2(a: Octet, b: Octet)
    requires Two(a, b)
    ensures Scalar(Code2(a, b)) && Utf8(Code2(a, b)) == [a, b]
  {
  }

  lemma Round3(a: Octet, b: Octet, c: Octet)
    requires Three(a, b, c)
    ensures Scalar(Code3(a, b, c)) && Utf8(Code3(a, b, c)) == [a, b, c]
  {
    hide Three, Code3, Scalar, Low, Lead2, Lead3, Lead4;
    Back3(a, b, c);
  }

  lemma Round4(a: Octet, b: Octet, c: Octet, d: Octet)
    requires Four(a, b, c, d)
    ensures Scalar(Code4(a, b, c, d)) && Utf8(Code4(a, b, c, d)) == [a, b, c, d]
  {
    hide Four, Code4, Scalar, Low, Lead2, Lead3, Lead4;
    Back4(a, b, c, d);
  }

  lemma Round1(a: Octet)
    requires a < 0x80
    ensures Scalar(a as CodePoint) && Utf8(a as CodePoint) == [a]
  {
  }

  /** UTF-8 takes the code point of a well-formed sequence back to the sequence. */
  lemma CodeOfBack(s: seq<Octet>)
    requires s != [] && SequenceLength(s) == |s|
    ensures Scalar(CodeOf(s)) && Utf8(CodeOf(s)) == s
  {
    hide Two, Three, Four, Code2, Code3, Code4, Utf8, Scalar;
    if |s| == 1 {
      Round1(s[0]);
    } else if |s| == 2 {
      Round2(s[0], s[1]);
    } else if |s| == 3 {
      Round3(s[0], s[1], s[2]);
    } else if |s| == 4 {
      Round4(s[0], s[1], s[2], s[3]);
    }
  }

  lemma Forth2(cp: CodePoint)
    requires 0x80 <= cp < 0x800
    ensures Two(Lead2(cp), Low(cp)) && Code2(Lead2(cp), Low(cp)) == cp
  {
  }

  lemma Forth3(cp: CodePoint)
    requires 0x800 <= cp < 0x10000 && Scalar(cp)
    ensures Three(Lead3(cp), Low(cp >> 6), Low(cp)) && Code3(Lead3(cp), Low(cp >> 6), Low(cp)) == cp
  {
  }

  lemma Forth4(cp: CodePoint)
    requires 0x10000 <= cp <= 0x10FFFF
    ensures var a, b, c, d := Lead4(cp), Low(cp >> 12), Low(cp >> 6), Low(cp);
            Four(a, b, c, d) && Code4(a, b, c, d) == cp
  {
  }

  /** The three forms begin differently. */
  lemma Apart(a: Octet, b: Octet, c: Octet, d: Octet)
    ensures Four(a, b, c, d) ==> a >= 0x80 && !Two(a, b) && !Three(a, b, c)
    ensures Three(a, b, c) ==> a >= 0x80 && !Two(a, b)
    ensures Two(a, b) ==> a >= 0x80
  {
  }

  predicate AllScalar(codes: seq<CodePoint>) {
    forall k :: 0 <= k < |codes| ==> Scalar(codes[k])
  }

  function Encode(codes: seq<CodePoint>): seq<Octet>
    requires AllScalar(codes)
  {
    if codes == [] then [] else Utf8(codes[0]) + Encode(codes[1..])
  }

  lemma {:induction false} DecodeScalar(s: seq<Octet>)
    ensures AllScalar(Decode(s))
  {
    hide SequenceLength, CodeOf, Scalar;
    var n := SequenceLength(s);
    if s == [] {
    } else if n == 0 {
      DecodeScalar(s[1..]);
      assert Scalar(REPLACEMENT) by { ReplacementScalar(); }
    } else {
      DecodeScalar(s[n..]);
      SequencePrefix(s, n);
      CodeOfBack(s[..n]);
    }
  }

  lemma ReplacementScalar()
    ensures Scalar(REPLACEMENT)
  {
  }

  lemma SequencePrefix(s: seq<Octet>, n: nat)
    requires n == SequenceLength(s) > 0
    ensures SequenceLength(s[..n]) == n
  {
  }

  /** Decoding loses nothing of well-formed text. */
  lemma {:induction false} EncodeDecode(s: seq<Octet>)
    requires WellFormed(s)
    ensures AllScalar(Decode(s)) && Encode(Decode(s)) == s
  {
    hide SequenceLength, CodeOf, Scalar, Utf8;
    DecodeScalar(s);
    if s == [] {
    } else {
      var n := SequenceLength(s);
      EncodeDecode(s[n..]);
      SequencePrefix(s, n);
      CodeOfBack(s[..n]);
      assert s == s[..n] + s[n..];
    }
  }

  lemma Forth(cp: CodePoint, rest: seq<Octet>)
    requires Scalar(cp)
    ensures Utf8(cp) != [] && SequenceLength(Utf8(cp) + rest) == |Utf8(cp)|
    ensures SequenceLength(Utf8(cp)) == |Utf8(cp)| && CodeOf(Utf8(cp)) == cp
  {
    hide Low, Lead2, Lead3, Lead4, Code2, Code3, Code4, Two, Three, Four;
    if 0x80 <= cp < 0x800 {
      Forth2(cp);
      Apart(Lead2(cp), Low(cp), 0, 0);
    } else if 0x800 <= cp < 0x10000 {
      Forth3(cp);
      Apart(Lead3(cp), Low(cp >> 6), Low(cp), 0);
    } else if 0x10000 <= cp {
      Forth4(cp);
      Apart(Lead4(cp), Low(cp >> 12), Low(cp >> 6), Low(cp));
    }
  }

  /** Decoding takes the UTF-8 form of any text back to it. */
  lemma {:induction false} DecodeEncode(codes: seq<CodePoint>)
    requires AllScalar(codes)
    ensures WellFormed(Encode(codes)) && Decode(Encode(codes)) == codes
  {
    hide SequenceLength, CodeOf, Utf8;
    if codes == [] {
    } else {
      var first, rest := Utf8(codes[0]), Encode(codes[1..]);
      DecodeEncode(codes[1..]);
      Forth(codes[0], rest);
      assert (first + rest)[..|first|] == first && (first + rest)[|first|..] == rest;
    }
  }

  // ------------------------------------------------- the escape, as a function

  const QUOTE: Octet := 0x22
  const BACKSLASH: Octet := 0x5C
  const LETTER_U: Octet := 0x75

  function HexDigit(d: Octet): Octet
    requires d < 16
  {
    if d < 10 then 0x30 + d else 0x57 + d
  }

  function EscapeAscii(c: Octet): seq<Octet> {
    if c == QUOTE then [BACKSLASH, QUOTE]
    else if c == BACKSLASH then [BACKSLASH, BACKSLASH]
    else if c == 0x0A then [BACKSLASH, 0x6E]
    else if c == 0x0D then [BACKSLASH, 0x72]
    else if c == 0x09 then [BACKSLASH, 0x74]
    else if c == 0x08 then [BACKSLASH, 0x62]
    else if c == 0x0C then [BACKSLASH, 0x66]
    else if c < 0x20 then [BACKSLASH, LETTER_U, 0x30, 0x30, HexDigit(c >> 4), HexDigit(c & 0x0F)]
    else [c]
  }

  /** `\ufffd`. */
  const ESCAPED_REPLACEMENT: seq<Octet> := [BACKSLASH, LETTER_U, 0x66, 0x66, 0x66, 0x64]

  /** What one character becomes: an ASCII byte, a well-formed sequence of `n` bytes, or a byte of neither kind. */
  function EscapeFirst(s: seq<Octet>): seq<Octet>
    requires s != []
  {
    if s[0] < 0x80 then EscapeAscii(s[0])
    else if SequenceLength(s) > 0 then s[..SequenceLength(s)]
    else ESCAPED_REPLACEMENT
  }

  function Width(s: seq<Octet>): (n: nat)
    requires s != []
    ensures 1 <= n <= |s|
  {
    if SequenceLength(s) > 0 then SequenceLength(s) else 1
  }

  function Escape(s: seq<Octet>): seq<Octet> {
    if s == [] then [] else EscapeFirst(s) + Escape(s[Width(s)..])
  }

  predicate Spells(out: seq<Octet>, s: string) {
    |out| == |s| && forall i | 0 <= i < |s| :: out[i] as int == s[i] as int
  }

  lemma HexDigits(d: Octet)
    requires d < 16
    ensures HexDigit(d) as int == "0123456789abcdef"[d as int] as int
  {
  }

  /** The escapes as they stand in the output; every other printable ASCII byte stands for itself. */
  lemma EscapeTable(c: Octet)
    ensures Spells(EscapeAscii(0x22), "\\\"") && Spells(EscapeAscii(0x5C), "\\\\")
    ensures Spells(EscapeAscii(0x0A), "\\n") && Spells(EscapeAscii(0x0D), "\\r") && Spells(EscapeAscii(0x09), "\\t")
    ensures Spells(EscapeAscii(0x08), "\\b") && Spells(EscapeAscii(0x0C), "\\f")
    ensures 0x20 <= c < 0x80 && c != 0x22 && c != 0x5C ==> EscapeAscii(c) == [c]
    ensures Spells(ESCAPED_REPLACEMENT, "\\ufffd")
  {
  }

  /** The output holds no control character. */
  lemma {:induction false} EscapeIsPrintable(s: seq<Octet>)
    ensures forall b | b in Escape(s) :: b >= 0x20
  {
    hide SequenceLength;
    if s == [] {
    } else {
      FirstIsPrintable(s);
      hide EscapeFirst;
      EscapeIsPrintable(s[Width(s)..]);
    }
  }

  lemma FirstIsPrintable(s: seq<Octet>)
    requires s != []
    ensures forall b | b in EscapeFirst(s) :: b >= 0x20
  {
  }

  // ------------------------------------------------------ RFC 8259, section 7

  datatype Parsed = Invalid | Chars(codes: seq<CodePoint>)

  predicate IsHex(b: Octet) {
    0x30 <= b <= 0x39 || 0x41 <= b <= 0x46 || 0x61 <= b <= 0x66
  }

  function HexValue(b: Octet): CodePoint
    requires IsHex(b)
  {
    if b <= 0x39 then (b - 0x30) as CodePoint else if b <= 0x46 then (b - 0x37) as CodePoint
    else (b - 0x57) as CodePoint
  }

  /** Whether `s` begins with `\u` and four hexadecimal digits. */
  predicate HasUnit(s: seq<Octet>) {
    |s| >= 6 && s[0] == BACKSLASH && s[1] == LETTER_U && IsHex(s[2]) && IsHex(s[3]) && IsHex(s[4]) && IsHex(s[5])
  }

  function Unit(s: seq<Octet>): CodePoint
    requires HasUnit(s)
  {
    (HexValue(s[2]) << 12) | (HexValue(s[3]) << 8) | (HexValue(s[4]) << 4) | HexValue(s[5])
  }

  /** The letters after a backslash that stand for one character. */
  predicate IsShort(b: Octet) {
    || b == QUOTE || b == BACKSLASH || b == 0x2F || b == 0x62 || b == 0x66 || b == 0x6E || b == 0x72 || b == 0x74
  }

  function ShortCode(b: Octet): CodePoint
    requires IsShort(b)
  {
    if b == 0x62 then 0x08 else if b == 0x66 then 0x0C else if b == 0x6E then 0x0A
    else if b == 0x72 then 0x0D else if b == 0x74 then 0x09 else b as CodePoint
  }

  /** How long the character at the start of a string's inside is, and its code point; length 0 if there is none. */
  function ReadChar(s: seq<Octet>): (r: (nat, CodePoint))
    ensures r.0 <= |s|
  {
    if s == [] || s[0] < 0x20 || s[0] == QUOTE then (0, 0)
    else if s[0] != BACKSLASH then
      var n := SequenceLength(s);
      if n == 0 then (0, 0) else SequencePrefix(s, n); (n, CodeOf(s[..n]))
    else if |s| >= 2 && IsShort(s[1]) then (2, ShortCode(s[1]))
    else if !HasUnit(s) then (0, 0)
    else if 0xD800 <= Unit(s) <= 0xDBFF then
      // A high surrogate stands only together with a low one.
      if HasUnit(s[6..]) && 0xDC00 <= Unit(s[6..]) <= 0xDFFF
      then (12, 0x10000 + ((Unit(s) & 0x3FF) << 10) + (Unit(s[6..]) & 0x3FF))
      else (0, 0)
    else if 0xDC00 <= Unit(s) <= 0xDFFF then (0, 0)
    else (6, Unit(s))
  }

  function ReadChars(s: seq<Octet>): Parsed {
    if s == [QUOTE] then Chars([])
    else
      var (n, code) := ReadChar(s);
      if n == 0 then Invalid
      else
        var rest := ReadChars(s[n..]);
        if rest.Invalid? then Invalid else Chars([code] + rest.codes)
  }

  /** The code points of a JSON string; `Invalid` for any other text. */
  function ReadString(s: seq<Octet>): Parsed {
    if s == [] || s[0] != QUOTE then Invalid else ReadChars(s[1..])
  }

  // ---------------------------------------------------------- the way back

  lemma ReadAscii(c: Octet, rest: seq<Octet>)
    requires c < 0x80
    ensures ReadChar(EscapeAscii(c) + rest) == (|EscapeAscii(c)|, c as CodePoint)
  {
  }

  lemma ReadReplacement(rest: seq<Octet>)
    ensures ReadChar(ESCAPED_REPLACEMENT + rest) == (6, REPLACEMENT)
  {
  }

  lemma ReadSequence(s: seq<Octet>, rest: seq<Octet>)
    requires s != [] && s[0] >= 0x80 && SequenceLength(s) == |s|
    ensures ReadChar(s + rest) == (|s|, CodeOf(s))
  {
  }

  function DecodeFirst(s: seq<Octet>): CodePoint
    requires s != []
  {
    if SequenceLength(s) == 0 then REPLACEMENT else SequencePrefix(s, SequenceLength(s)); CodeOf(s[..SequenceLength(s)])
  }

  lemma CodeOfAscii(s: seq<Octet>)
    requires s != [] && s[0] < 0x80
    ensures DecodeFirst(s) == s[0] as CodePoint
  {
  }

  /** Whatever follows, reading what one character became gives its code point and stops where it ends. */
  lemma ReadFirst(s: seq<Octet>, rest: seq<Octet>)
    requires s != []
    ensures EscapeFirst(s) != []
    ensures ReadChar(EscapeFirst(s) + rest) == (|EscapeFirst(s)|, DecodeFirst(s))
  {
    hide ReadChar, CodeOf;
    if s[0] < 0x80 {
      CodeOfAscii(s);
      ReadAscii(s[0], rest);
    } else if SequenceLength(s) > 0 {
      SequencePrefix(s, SequenceLength(s));
      ReadSequence(s[..SequenceLength(s)], rest);
    } else {
      ReadReplacement(rest);
    }
  }

  lemma DecodeStep(s: seq<Octet>)
    requires s != []
    ensures Decode(s) == [DecodeFirst(s)] + Decode(s[Width(s)..])
  {
  }

  lemma {:induction false} ReadEscaped(s: seq<Octet>)
    ensures ReadChars(Escape(s) + [QUOTE]) == Chars(Decode(s))
  {
    hide ReadChar, CodeOf, EscapeFirst, DecodeFirst, SequenceLength, Decode;
    if s == [] {
      DecodeNothing();
      assert Escape(s) + [QUOTE] == [QUOTE];
    } else {
      var first := EscapeFirst(s);
      var rest := Escape(s[Width(s)..]) + [QUOTE];
      ReadEscaped(s[Width(s)..]);
      ReadFirst(s, rest);
      DecodeStep(s);
      assert Escape(s) + [QUOTE] == first + rest;
      assert (first + rest)[|first|..] == rest;
      assert |first + rest| > 1;
    }
  }

  lemma DecodeNothing()
    ensures Decode([]) == []
  {
  }

  /**
   * A JSON parser takes the quoted escape back to the text, with U+FFFD for each byte outside a well-formed UTF-8
   * sequence; so well-formed text comes back unchanged.
   */
  lemma EscapeRoundTrip(s: seq<Octet>)
    ensures ReadString([QUOTE] + Escape(s) + [QUOTE]) == Chars(Decode(s))
    ensures WellFormed(s) ==> AllScalar(Decode(s)) && Encode(Decode(s)) == s
  {
    hide ReadChars, Escape, Decode, Encode;
    ReadEscaped(s);
    assert ([QUOTE] + Escape(s) + [QUOTE])[1..] == Escape(s) + [QUOTE];
    if WellFormed(s) {
      EncodeDecode(s);
    }
  }

  // ---------------------------------------------------------------- the loop

  /** The bits gathered from the first `n` bytes of `t`. */
  function Folded(t: seq<Octet>, n: nat): CodePoint
    requires 1 <= n <= |t|
  {
    if n == 1 then LeadBits(t[0]) else Shift(Folded(t, n - 1), t[n - 1])
  }

  predicate AllContinue(t: seq<Octet>, n: nat)
    requires n <= |t|
  {
    forall k :: 1 <= k < n ==> Continues(t[k])
  }

  lemma FoldedStep(t: seq<Octet>, n: nat)
    requires 1 < n <= |t|
    ensures Folded(t, n) == Shift(Folded(t, n - 1), t[n - 1])
    ensures AllContinue(t, n) <==> AllContinue(t, n - 1) && Continues(t[n - 1])
  {
  }

  lemma FoldedStart(t: seq<Octet>)
    requires t != []
    ensures Folded(t, 1) == LeadBits(t[0]) && AllContinue(t, 1)
  {
  }

  /** The bit test accepts exactly the well-formed sequences. */
  lemma TestIsGrammar(t: seq<Octet>)
    requires t != [] && t[0] >= 0x80
    ensures var n := Announced(t[0]);
            SequenceLength(t) == (if 0 < n <= |t| && AllContinue(t, n) && InRange(n, Folded(t, n)) then n else 0)
  {
    hide Announced, Continues, InRange, Shift, LeadBits, Two, Three, Four, Folded, AllContinue;
    FoldedStart(t);
    AnnouncedIs(t[0]);
    if |t| >= 2 {
      FoldedStep(t, 2);
      TestTwo(t[0], t[1]);
    }
    if |t| >= 3 {
      FoldedStep(t, 3);
      TestThree(t[0], t[1], t[2]);
    }
    if |t| >= 4 {
      FoldedStep(t, 4);
      TestFour(t[0], t[1], t[2], t[3]);
    }
  }

  lemma AnnouncedIs(a: Octet)
    ensures Announced(a) == 0 || Announced(a) == 2 || Announced(a) == 3 || Announced(a) == 4
  {
  }

  /** One turn of the loop: the text before `i` is escaped, and the character at `i` is next. */
  lemma EscapeTurn(s: seq<Octet>, i: nat, out: seq<Octet>)
    requires i < |s| && out + Escape(s[i..]) == Escape(s)
    ensures out + EscapeFirst(s[i..]) + Escape(s[i + Width(s[i..])..]) == Escape(s)
  {
    hide *;
    var t := s[i..];
    assert t[Width(t)..] == s[i + Width(t)..];
    EscapeUnfold(t);
    Associates(out, EscapeFirst(t), Escape(t[Width(t)..]));
  }

  lemma EscapeUnfold(s: seq<Octet>)
    requires s != []
    ensures Escape(s) == EscapeFirst(s) + Escape(s[Width(s)..])
  {
  }

  /** The escape of an ASCII character, by its `switch`; whatever follows, a parser reads it as that character. */
  method EscapeChar(c: Octet) returns (out: seq<Octet>)
    requires c < 0x80
    ensures out == EscapeAscii(c)
    ensures forall rest :: ReadChar(out + rest) == (|out|, c as CodePoint)
  {
    if c == QUOTE {
      out := [BACKSLASH, QUOTE];
    } else if c == BACKSLASH {
      out := [BACKSLASH, BACKSLASH];
    } else if c == 0x0A {
      out := [BACKSLASH, 0x6E];
    } else if c == 0x0D {
      out := [BACKSLASH, 0x72];
    } else if c == 0x09 {
      out := [BACKSLASH, 0x74];
    } else if c == 0x08 {
      out := [BACKSLASH, 0x62];
    } else if c == 0x0C {
      out := [BACKSLASH, 0x66];
    } else if c < 0x20 {
      out := [BACKSLASH, LETTER_U, 0x30, 0x30, HexDigit(c >> 4), HexDigit(c & 0x0F)];
    } else {
      out := [c];
    }
    forall rest ensures ReadChar(out + rest) == (|out|, c as CodePoint) {
      ReadAscii(c, rest);
    }
  }

  /** The first step of the bit test, in bits. */
  lemma LeadIs(c: Octet)
    ensures c & 0xE0 == 0xC0 ==> Announced(c) == 2 && LeadBits(c) == (c & 0x1F) as CodePoint
    ensures c & 0xE0 != 0xC0 && c & 0xF0 == 0xE0 ==> Announced(c) == 3 && LeadBits(c) == (c & 0x0F) as CodePoint
    ensures c & 0xE0 != 0xC0 && c & 0xF0 != 0xE0 && c & 0xF8 == 0xF0 ==>
              Announced(c) == 4 && LeadBits(c) == (c & 0x07) as CodePoint
    ensures c & 0xE0 != 0xC0 && c & 0xF0 != 0xE0 && c & 0xF8 != 0xF0 ==> Announced(c) == 0 && LeadBits(c) == 0
  {
  }

  /** A further step of the bit test, in bits. */
  lemma ShiftIs(t: seq<Octet>, k: nat)
    requires 1 <= k < |t|
    ensures AllContinue(t, k + 1) <==> AllContinue(t, k) && t[k] & 0xC0 == 0x80
    ensures Folded(t, k + 1) == (Folded(t, k) << 6) | (t[k] & 0x3F) as CodePoint
  {
  }

  lemma ContinueLess(t: seq<Octet>, k: nat, n: nat)
    requires k <= n <= |t| && AllContinue(t, n)
    ensures AllContinue(t, k)
  {
  }

  /** The bit test on the character at `s[i]`: its announced length, and whether it is well formed. */
  method TestSequence(s: seq<Octet>, i: nat) returns (len: nat, valid: bool)
    requires i < |s| && s[i] >= 0x80
    ensures SequenceLength(s[i..]) == (if valid then len else 0)
    ensures valid ==> len > 0 && i + len <= |s|
  {
    hide *;
    var c := s[i];
    var cp: CodePoint := 0;
    len := 0;
    if c & 0xE0 == 0xC0 {
      len, cp := 2, (c & 0x1F) as CodePoint;
    } else if c & 0xF0 == 0xE0 {
      len, cp := 3, (c & 0x0F) as CodePoint;
    } else if c & 0xF8 == 0xF0 {
      len, cp := 4, (c & 0x07) as CodePoint;
    }
    LeadIs(c);
    valid := len > 0 && i + len <= |s|;
    ghost var t := s[i..];
    FoldedStart(t);
    var k := 1;
    while valid && k < len
      invariant valid ==> 1 <= k <= len <= |t| && AllContinue(t, k) && cp == Folded(t, k)
      invariant !valid && 0 < len <= |t| ==> 1 <= k <= len && !AllContinue(t, k)
      decreases len - k, valid
    {
      ShiftIs(t, k);
      var cc := s[i + k];
      valid := cc & 0xC0 == 0x80;
      cp := (cp << 6) | (cc & 0x3F) as CodePoint;
      k := k + 1;
    }
    if !valid && 0 < len <= |t| && AllContinue(t, len) {
      ContinueLess(t, k, len);
    }
    TestIsGrammar(t);
    valid := valid && InRange(len, cp);
  }

  method EscapeJsonString(s: seq<Octet>) returns (out: seq<Octet>)
    ensures out == Escape(s)
  {
    hide Escape, EscapeAscii, SequenceLength;
    out := [];
    var i := 0;
    assert s[0..] == s && [] + Escape(s) == Escape(s);
    while i < |s|
      invariant i <= |s| && out + Escape(s[i..]) == Escape(s)
    {
      EscapeTurn(s, i, out);
      if s[i] < 0x80 {
        AsciiWidth(s[i..]);
        var escaped := EscapeChar(s[i]);
        out := out + escaped;
        i := i + 1;
      } else {
        var len, valid := TestSequence(s, i);
        if valid {
          assert s[i..][..len] == s[i..i + len];
          out := out + s[i..i + len];
          i := i + len;
        } else {
          out := out + ESCAPED_REPLACEMENT;
          i := i + 1;
        }
      }
    }
    EscapeNothing(s[i..]);
  }

  lemma AsciiWidth(s: seq<Octet>)
    requires s != [] && s[0] < 0x80
    ensures Width(s) == 1
  {
  }

  lemma EscapeNothing(s: seq<Octet>)
    requires s == []
    ensures Escape(s) == []
  {
  }
}
