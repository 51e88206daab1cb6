/**
 * The atomic units of a text: bytes in ASCII mode, UTF-8 code points in UNICODE mode
 * (the splitter and the lenient UTF-8 check of the tokenizer).
 */
module Units {
  import opened Bytes

  datatype Mode = ASCII | UNICODE

  /** Length announced by a lead byte, 0 for a byte that cannot lead. */
  function LeadLength(c: Byte): nat {
    if c < 0x80 then 1
    else if 0xC0 <= c < 0xE0 then 2
    else if 0xE0 <= c < 0xF0 then 3
    else if 0xF0 <= c < 0xF8 then 4
    else 0
  }

  predicate Continuation(c: Byte) {
    0x80 <= c < 0xC0
  }

  /** The original tests bit masks; these are the ranges they stand for. */
  lemma MasksAreRanges(c: bv8)
    ensures c & 0x80 == 0 <==> c < 0x80
    ensures c & 0xE0 == 0xC0 <==> 0xC0 <= c < 0xE0
    ensures c & 0xF0 == 0xE0 <==> 0xE0 <= c < 0xF0
    ensures c & 0xF8 == 0xF0 <==> 0xF0 <= c < 0xF8
    ensures c & 0xC0 == 0x80 <==> 0x80 <= c < 0xC0
  {
  }

  /** Whether a whole sequence starts here: a lead byte followed by its continuation bytes. */
  predicate StartsSequence(s: Str) {
    s != [] && 0 < LeadLength(s[0]) <= |s| &&
    forall j | 1 <= j < LeadLength(s[0]) :: Continuation(s[j])
  }

  /** The tokenizer's UTF-8 check; it also accepts overlong forms, surrogates and leads up to 0xF7. */
  predicate ValidUtf8(s: Str) {
    s == [] || (StartsSequence(s) && ValidUtf8(s[LeadLength(s[0])..]))
  }

  /** Bytes the splitter takes at the front: a stray byte or a cut-off sequence counts as one unit. */
  function SplitLength(s: Str): (n: nat)
    requires s != []
    ensures 1 <= n <= |s|
  {
    var bytes := if LeadLength(s[0]) == 0 then 1 else LeadLength(s[0]);
    if bytes > |s| then 1 else bytes
  }

  function SplitCodePoints(s: Str): seq<Str> {
    if s == [] then [] else [s[..SplitLength(s)]] + SplitCodePoints(s[SplitLength(s)..])
  }

  function SplitBytes(s: Str): seq<Str> {
    seq(|s|, i requires 0 <= i < |s| => [s[i]])
  }

  function SplitUnits(mode: Mode, s: Str): seq<Str> {
    if mode.UNICODE? then SplitCodePoints(s) else SplitBytes(s)
  }

  predicate IsUnit(mode: Mode, u: Str) {
    u != [] && |u| == if mode.ASCII? then 1 else LeadLength(u[0])
  }

  predicate AllUnits(mode: Mode, us: seq<Str>) {
    forall i | 0 <= i < |us| :: IsUnit(mode, us[i])
  }

  /** What the splitter needs of a text to return true units only. */
  predicate Splittable(mode: Mode, s: Str) {
    mode.UNICODE? ==> ValidUtf8(s)
  }

  // ------------------------------------------------------------- the loops

  lemma SplitStep(s: Str, i: nat, bytes: nat, done: seq<Str>)
    requires i < |s| && bytes == SplitLength(s[i..])
    ensures done + SplitCodePoints(s[i..]) == (done + [s[i..i + bytes]]) + SplitCodePoints(s[i + bytes..])
  {
    assert s[i..][..bytes] == s[i..i + bytes] && s[i..][bytes..] == s[i + bytes..];
  }

  method Utf8SplitCodepoints(s: Str) returns (result: seq<Str>)
    ensures result == SplitCodePoints(s)
  {
    result := [];
    var i := 0;
    while i < |s|
      invariant 0 <= i <= |s|
      invariant result + SplitCodePoints(s[i..]) == SplitCodePoints(s)
    {
      var c := s[i];
      var bytes := 1;
      if c < 0x80 {
        bytes := 1;
      } else if 0xC0 <= c < 0xE0 {
        bytes := 2;
      } else if 0xE0 <= c < 0xF0 {
        bytes := 3;
      } else if 0xF0 <= c < 0xF8 {
        bytes := 4;
      }
      if i + bytes > |s| {
        bytes := 1;
      }
      SplitStep(s, i, bytes, result);
      result := result + [s[i..i + bytes]];
      i := i + bytes;
    }
  }

  method IsValidUtf8(text: Str) returns (valid: bool)
    ensures valid == ValidUtf8(text)
  {
    var i := 0;
    while i < |text|
      invariant 0 <= i <= |text|
      invariant ValidUtf8(text) == ValidUtf8(text[i..])
    {
      var c := text[i];
      var bytes := 0;
      if c < 0x80 {
        bytes := 1;
      } else if 0xC0 <= c < 0xE0 {
        bytes := 2;
      } else if 0xE0 <= c < 0xF0 {
        bytes := 3;
      } else if 0xF0 <= c < 0xF8 {
        bytes := 4;
      } else {
        return false;
      }

      ghost var rest := text[i..];
      assert bytes == LeadLength(rest[0]);
      if i + bytes > |text| {
        return false;
      }
      var j := 1;
      while j < bytes
        invariant 1 <= j <= bytes
        invariant forall k | 1 <= k < j :: Continuation(rest[k])
      {
        assert text[i + j] == rest[j];
        if !(0x80 <= text[i + j] < 0xC0) {
          assert !Continuation(rest[j]);
          return false;
        }
        j := j + 1;
      }
      assert StartsSequence(rest);
      assert rest[bytes..] == text[i + bytes..];
      i := i + bytes;
    }
    return true;
  }

  // ----------------------------------------------------------- the properties

  /** Splitting loses nothing, on any bytes. */
  lemma SplitKeepsText(mode: Mode, s: Str)
    ensures Concat(SplitUnits(mode, s)) == s
  {
    if mode.UNICODE? {
      SplitCodePointsKeepsText(s);
    } else {
      SplitBytesKeepsText(s);
    }
  }

  lemma SplitFirst(s: Str)
    requires s != []
    ensures SplitCodePoints(s) != [] && SplitCodePoints(s)[0] == s[..SplitLength(s)]
    ensures SplitCodePoints(s)[1..] == SplitCodePoints(s[SplitLength(s)..])
  {
    hide SplitLength;
  }

  lemma {:induction false} SplitCodePointsKeepsText(s: Str)
    ensures Concat(SplitCodePoints(s)) == s
    decreases |s|
  {
    hide SplitLength, SplitCodePoints;
    if s == [] {
      SplitNothing();
    } else {
      var n := SplitLength(s);
      SplitCodePointsKeepsText(s[n..]);
      SplitFirst(s);
      assert s == s[..n] + s[n..];
    }
  }

  lemma SplitNothing()
    ensures SplitCodePoints([]) == [] && Concat([]) == []
  {
  }

  lemma {:induction false} SplitBytesKeepsText(s: Str)
    ensures Concat(SplitBytes(s)) == s
  {
    if s == [] {
    } else {
      SplitBytesKeepsText(s[1..]);
      assert SplitBytes(s)[1..] == SplitBytes(s[1..]);
    }
  }

  /** On text that passes the check every piece is a whole unit. */
  lemma {:induction false} SplitGivesUnits(mode: Mode, s: Str)
    requires Splittable(mode, s)
    ensures AllUnits(mode, SplitUnits(mode, s))
    decreases |s|
  {
    if mode.ASCII? || s == [] {
    } else {
      SplitGivesUnits(mode, s[SplitLength(s)..]);
    }
  }

  /** Units form a prefix code: a text has only one reading as a list of units. */
  lemma {:induction false} UnitsUnique(mode: Mode, x: seq<Str>, y: seq<Str>)
    requires AllUnits(mode, x) && AllUnits(mode, y)
    requires Concat(x) == Concat(y)
    ensures x == y
  {
    if x == [] || y == [] {
    } else {
      var t := Concat(x);
      assert t == x[0] + Concat(x[1..]) && t == y[0] + Concat(y[1..]);
      assert x[0][0] == t[0] && y[0][0] == t[0];
      assert x[0] == t[..|x[0]|] && y[0] == t[..|y[0]|];
      assert Concat(x[1..]) == t[|x[0]|..] && Concat(y[1..]) == t[|y[0]|..];
      UnitsUnique(mode, x[1..], y[1..]);
      assert x == [x[0]] + x[1..] && y == [y[0]] + y[1..];
    }
  }

  lemma ValidStep(s: Str, rest: Str)
    requires s != [] && 0 < LeadLength(s[0]) <= |s|
    requires forall j | 1 <= j < LeadLength(s[0]) :: Continuation(s[j])
    requires s[LeadLength(s[0])..] == rest && ValidUtf8(rest)
    ensures ValidUtf8(s)
  {
  }

  /** A cut next to an ASCII byte falls between code points. */
  lemma {:induction false} CutAtAscii(s: Str, e: nat)
    requires ValidUtf8(s) && 0 < e < |s|
    requires s[e - 1] < 0x80 || s[e] < 0x80
    ensures ValidUtf8(s[..e]) && ValidUtf8(s[e..])
    decreases |s|
  {
    var n := LeadLength(s[0]);
    CutOutsideSequence(s, e);
    if e == n {
      assert s[..e][n..] == [];
    } else {
      CutAtAscii(s[n..], e - n);
      assert s[n..][e - n..] == s[e..];
      assert s[..e][n..] == s[n..][..e - n];
      assert s[..e][0] == s[0];
      forall j | 1 <= j < n ensures Continuation(s[..e][j]) {
        assert s[..e][j] == s[j];
      }
      ValidStep(s[..e], s[n..][..e - n]);
    }
  }

  lemma CutOutsideSequence(s: Str, e: nat)
    requires StartsSequence(s) && 0 < e < |s|
    requires s[e - 1] < 0x80 || s[e] < 0x80
    ensures LeadLength(s[0]) <= e
  {
  }

  lemma {:induction false} ValidConcat(a: Str, b: Str)
    requires ValidUtf8(a) && ValidUtf8(b)
    ensures ValidUtf8(a + b)
    decreases |a|
  {
    if a == [] {
      assert a + b == b;
    } else {
      var n := LeadLength(a[0]);
      ValidConcat(a[n..], b);
      assert (a + b)[0] == a[0];
      assert (a + b)[n..] == a[n..] + b;
      forall j | 1 <= j < n ensures Continuation((a + b)[j]) {
        assert (a + b)[j] == a[j];
      }
      ValidStep(a + b, a[n..] + b);
    }
  }
}
