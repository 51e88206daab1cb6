/** The two encodings inside a vocabulary line: escaped tokens and decimal numbers. */
module Escaping {
  import opened Bytes
  import opened Regex

  const BACKSLASH: Byte := 0x5C

  function EscapeByte(c: Byte): Str {
    if c == LF then [BACKSLASH, 0x6E]
    else if c == TAB then [BACKSLASH, 0x74]
    else if c == CR then [BACKSLASH, 0x72]
    else if c == BACKSLASH then [BACKSLASH, BACKSLASH]
    else if c == SPACE then [BACKSLASH, 0x73]
    else [c]
  }

  function Escape(s: Str): Str {
    if s == [] then [] else EscapeByte(s[0]) + Escape(s[1..])
  }

  /** The byte an escape letter stands for, if it is one. */
  function EscapeLetter(c: Byte): seq<Byte> {
    if c == 0x6E then [LF]
    else if c == 0x74 then [TAB]
    else if c == 0x72 then [CR]
    else if c == BACKSLASH then [BACKSLASH]
    else if c == 0x73 then [SPACE]
    else []
  }

  /** A backslash before anything else stands for itself. */
  function Unescape(s: Str): Str {
    if s == [] then []
    else if s[0] == BACKSLASH && |s| > 1 && EscapeLetter(s[1]) != [] then EscapeLetter(s[1]) + Unescape(s[2..])
    else [s[0]] + Unescape(s[1..])
  }

  method EscapeToken(s: Str) returns (result: Str)
    ensures result == Escape(s)
  {
    result := [];
    assert s[0..] == s;
    var i := 0;
    while i < |s|
      invariant 0 <= i <= |s|
      invariant result + Escape(s[i..]) == Escape(s)
    {
      EscapeStep(s, i, result);
      var c := s[i];
      if c == LF {
        result := result + [BACKSLASH, 0x6E];
      } else if c == TAB {
        result := result + [BACKSLASH, 0x74];
      } else if c == CR {
        result := result + [BACKSLASH, 0x72];
      } else if c == BACKSLASH {
        result := result + [BACKSLASH, BACKSLASH];
      } else if c == SPACE {
        result := result + [BACKSLASH, 0x73];
      } else {
        result := result + [c];
      }
      i := i + 1;
    }
  }

  lemma EscapeStep(s: Str, i: nat, before: Str)
    requires i < |s|
    ensures before + Escape(s[i..]) == (before + EscapeByte(s[i])) + Escape(s[i + 1..])
  {
  }

  method UnescapeToken(s: Str) returns (result: Str)
    ensures result == Unescape(s)
  {
    result := [];
    assert s[0..] == s;
    var i := 0;
    while i < |s|
      invariant 0 <= i <= |s|
      invariant result + Unescape(s[i..]) == Unescape(s)
    {
      UnescapeStep(s, i, result);
      if s[i] == BACKSLASH && i + 1 < |s| {
        var next := s[i + 1];
        if next == 0x6E {
          result := result + [LF];
          i := i + 1;
        } else if next == 0x74 {
          result := result + [TAB];
          i := i + 1;
        } else if next == 0x72 {
          result := result + [CR];
          i := i + 1;
        } else if next == BACKSLASH {
          result := result + [BACKSLASH];
          i := i + 1;
        } else if next == 0x73 {
          result := result + [SPACE];
          i := i + 1;
        } else {
          result := result + [s[i]];
        }
      } else {
        result := result + [s[i]];
      }
      i := i + 1;
    }
  }

  lemma UnescapeStep(s: Str, i: nat, before: Str)
    requires i < |s|
    ensures before + Unescape(s[i..]) ==
      if s[i] == BACKSLASH && i + 1 < |s| && EscapeLetter(s[i + 1]) != []
      then (before + EscapeLetter(s[i + 1])) + Unescape(s[i + 2..])
      else (before + [s[i]]) + Unescape(s[i + 1..])
  {
  }

  /** No token is changed by a round through the file. */
  lemma {:induction false} UnescapeEscape(s: Str)
    ensures Unescape(Escape(s)) == s
  {
    if s == [] {
    } else {
      UnescapeEscape(s[1..]);
      var head, tail := EscapeByte(s[0]), Escape(s[1..]);
      var all := head + tail;
      if |head| == 2 {
        assert all[0] == BACKSLASH && all[1] == head[1] && all[2..] == tail;
        assert EscapeLetter(head[1]) == [s[0]];
      } else {
        assert all[0] == s[0] && all[1..] == tail;
      }
    }
  }

  /** The five escapes as they stand in a file; every other byte stands for itself. */
  lemma EscapeTable(c: Byte)
    ensures Escape(Text("\n")) == Text("\\n") && Escape(Text("\t")) == Text("\\t") && Escape(Text("\r")) == Text("\\r")
    ensures Escape(Text("\\")) == Text("\\\\") && Escape(Text(" ")) == Text("\\s")
    ensures c as int !in {'\n' as int, '\t' as int, '\r' as int, '\\' as int, ' ' as int} ==> Escape([c]) == [c]
  {
    assert Text("\n") == [LF] && Text("\t") == [TAB] && Text("\r") == [CR];
    assert Text("\\") == [BACKSLASH] && Text(" ") == [SPACE];
    EscapeOne(LF);
    EscapeOne(TAB);
    EscapeOne(CR);
    EscapeOne(BACKSLASH);
    EscapeOne(SPACE);
    EscapeOne(c);
    hide Escape;
  }

  lemma EscapeOne(c: Byte)
    ensures Escape([c]) == EscapeByte(c)
  {
    assert [c][1..] == [];
  }

  /** Tokens are escaped byte by byte. */
  lemma {:induction false} EscapeAppend(a: Str, b: Str)
    ensures Escape(a + b) == Escape(a) + Escape(b)
  {
    if a == [] {
      assert a + b == b;
    } else {
      assert (a + b)[1..] == a[1..] + b;
      EscapeAppend(a[1..], b);
    }
  }

  /** A text in which no backslash stands before one of the five letters is read as it is. */
  lemma {:induction false} UnescapeOther(s: Str)
    requires forall i | 0 <= i < |s| - 1 && s[i] as int == '\\' as int ::
               s[i + 1] as int !in {'n' as int, 't' as int, 'r' as int, '\\' as int, 's' as int}
    ensures Unescape(s) == s
  {
    if s == [] {
    } else {
      forall i | 0 <= i < |s[1..]| - 1 && s[1..][i] as int == '\\' as int
        ensures s[1..][i + 1] as int !in {'n' as int, 't' as int, 'r' as int, '\\' as int, 's' as int}
      {
        assert s[i + 1] as int == '\\' as int;
      }
      UnescapeOther(s[1..]);
      assert |s| > 1 && s[0] == BACKSLASH ==> EscapeLetter(s[1]) == [] by { assert 0 < |s| - 1 ==> s[0 + 1] == s[1]; }
    }
  }

  predicate Separator(c: Byte) {
    c == LF || c == TAB || c == CR || c == SPACE
  }

  /** An escaped token holds no byte that separates fields or lines. */
  lemma {:induction false} EscapeHasNoSeparator(s: Str)
    ensures forall i | 0 <= i < |Escape(s)| :: !Separator(Escape(s)[i])
  {
    if s == [] {
    } else {
      EscapeHasNoSeparator(s[1..]);
    }
  }

  predicate Plain(s: Str) {
    forall i | 0 <= i < |s| :: EscapeByte(s[i]) == [s[i]]
  }

  /** An escaped token starts with a plain word exactly when the token does. */
  lemma {:induction false} EscapeKeepsPrefix(word: Str, s: Str)
    requires Plain(word)
    ensures word <= Escape(s) <==> word <= s
  {
    if word == [] || s == [] {
    } else {
      EscapeKeepsPrefix(word[1..], s[1..]);
      var head, tail := EscapeByte(s[0]), Escape(s[1..]);
      assert word == [word[0]] + word[1..] && s == [s[0]] + s[1..];
      if word[0] == s[0] {
        assert Escape(s) == [s[0]] + tail;
        PrefixStep(word, Escape(s));
        PrefixStep(word, s);
        assert Escape(s)[1..] == tail;
      } else {
        assert EscapeByte(word[0]) == [word[0]];
        assert Escape(s)[0] == head[0] != word[0];
      }
    }
  }

  lemma PrefixStep(a: Str, b: Str)
    requires a != [] && b != [] && a[0] == b[0]
    ensures a <= b <==> a[1..] <= b[1..]
  {
  }

  // ---------------------------------------------------------------- numbers

  function Digit(d: int): Byte
    requires 0 <= d < 10
  {
    (0x30 + d) as Byte
  }

  /** What `<<` prints for a non-negative number. */
  function Decimal(n: nat): (s: Str)
    ensures s != []
    ensures forall i | 0 <= i < |s| :: IsDigit(s[i])
  {
    if n < 10 then [Digit(n)] else Decimal(n / 10) + [Digit(n % 10)]
  }

  function Power10(k: nat): (p: nat)
    ensures p > 0
  {
    if k == 0 then 1 else 10 * Power10(k - 1)
  }

  lemma LargeMultiple(p: int, x: int)
    requires p > 0
    ensures x != 0 ==> p * x >= p || p * x <= -p
  {
    if x >= 1 {
      assert p * x >= p * 1;
    } else if x <= -1 {
      assert p * -x >= p * 1;
      assert p * x == -(p * -x);
    }
  }

  lemma DivideSum(p: nat, q: nat, r: nat)
    requires r < p
    ensures (p * q + r) / p == q
  {
    var d, m := (p * q + r) / p, (p * q + r) % p;
    assert p * d + m == p * q + r;
    assert p * (d - q) == p * d - p * q;
    LargeMultiple(p, d - q);
  }

  lemma DivideTwice(n: nat, p: nat)
    requires p > 0
    ensures n / 10 / p == n / (10 * p)
  {
    var q, r := n / 10 / p, n / 10 % p;
    assert n / 10 == p * q + r;
    assert n == 10 * (n / 10) + n % 10;
    assert 10 * (p * q) == 10 * p * q;
    DivideSum(10 * p, q, 10 * r + n % 10);
  }

  /** The digits are those of the decimal system, from the right, without a leading zero. */
  lemma {:induction false} DecimalDigits(n: nat)
    ensures var s := Decimal(n);
      && n < Power10(|s|) && (|s| > 1 ==> n >= Power10(|s| - 1))
      && forall k | 0 <= k < |s| :: DigitAt(s, n, k)
  {
    if n < 10 {
      assert Power10(1) == 10 * Power10(0);
    } else {
      DecimalDigits(n / 10);
      var s, front := Decimal(n), Decimal(n / 10);
      assert s == front + [Digit(n % 10)];
      assert Power10(|s|) == 10 * Power10(|front|) && Power10(|front|) == 10 * Power10(|front| - 1);
      hide Decimal, Digit;
      forall k | 0 <= k < |s| ensures DigitAt(s, n, k) {
        if k > 0 {
          assert DigitAt(front, n / 10, k - 1);
          assert s[|s| - 1 - k] == front[|front| - 1 - (k - 1)];
          DivideTwice(n, Power10(k - 1));
        } else {
          LastDigit(n);
        }
      }
    }
  }

  /** Digit `k` from the right. */
  predicate DigitAt(s: Str, n: nat, k: nat)
    requires k < |s|
  {
    s[|s| - 1 - k] as int == '0' as int + n / Power10(k) % 10
  }

  lemma LastDigit(n: nat)
    ensures var s := Decimal(n); s[|s| - 1] as int == '0' as int + n % 10
    ensures n / Power10(0) == n
  {
  }

  /** What `<<` prints for any number. */
  function Printed(n: int): Str {
    if n < 0 then [0x2D] + Decimal(-n) else Decimal(n)
  }

  /** Read leading digits behind a value already read. */
  function ReadDigits(s: Str, value: nat): nat {
    if s == [] || !IsDigit(s[0]) then value else ReadDigits(s[1..], value * 10 + (s[0] as int - 0x30))
  }

  datatype Number = Int(n: int) | NoNumber | OutOfRange

  /** `std::stoi`: white space, an optional sign, digits; what follows the digits is ignored. */
  function Stoi(s: Str): Number {
    var rest := s[RunLength(White, s)..];
    var sign := if rest != [] && (rest[0] == 0x2D || rest[0] == 0x2B) then 1 else 0;
    var digits := rest[sign..];
    if digits == [] || !IsDigit(digits[0]) then NoNumber
    else
      var n: int := ReadDigits(digits, 0);
      var value: int := if sign == 1 && rest[0] == 0x2D then -n else n;
      if -0x8000_0000 <= value < 0x8000_0000 then Int(value) else OutOfRange
  }

  lemma {:induction false} ReadDigitsAppend(a: Str, b: Str, value: nat)
    requires forall i | 0 <= i < |a| :: IsDigit(a[i])
    ensures ReadDigits(a + b, value) == ReadDigits(b, ReadDigits(a, value))
    decreases a
  {
    if a == [] {
      assert a + b == b;
    } else {
      assert (a + b)[1..] == a[1..] + b;
      ReadDigitsAppend(a[1..], b, value * 10 + (a[0] as int - 0x30));
    }
  }

  lemma {:induction false} ReadDecimal(n: nat)
    ensures ReadDigits(Decimal(n), 0) == n
  {
    if n < 10 {
      assert [Digit(n)][1..] == [];
    } else {
      ReadDecimal(n / 10);
      ReadDigitsAppend(Decimal(n / 10), [Digit(n % 10)], 0);
      assert [Digit(n % 10)][1..] == [];
      assert ReadDigits([Digit(n % 10)], n / 10) == (n / 10) * 10 + n % 10;
    }
  }

  /** Zeros in front do not matter. */
  lemma {:induction false} ReadZeros(z: nat, rest: Str)
    ensures ReadDigits(Zeros(z) + rest, 0) == ReadDigits(rest, 0)
  {
    var s := Zeros(z) + rest;
    if z == 0 {
      assert s == rest;
    } else {
      assert s[0] as int == 0x30 && s[1..] == Zeros(z - 1) + rest;
      ReadZeros(z - 1, rest);
    }
  }

  /** The number as an `int`, if it is one. */
  function Signed(sign: string, n: int): Number {
    var value := if sign == "-" then -n else n;
    if -0x8000_0000 <= value < 0x8000_0000 then Int(value) else OutOfRange
  }

  lemma {:induction false} WhiteSkipped(white: Str, rest: Str)
    requires forall i | 0 <= i < |white| :: IsWhite(white[i])
    requires rest == [] || !IsWhite(rest[0])
    ensures RunLength(White, white + rest) == |white| && (white + rest)[|white|..] == rest
  {
    if white == [] {
      assert white + rest == rest;
    } else {
      assert (white + rest)[1..] == white[1..] + rest;
      WhiteSkipped(white[1..], rest);
      assert (white + rest)[|white|..] == rest;
    }
  }

  /** A number is read behind white space and up to one sign, leading zeros and all, and what follows it is ignored. */
  lemma StoiReads(white: Str, sign: string, zeros: nat, n: nat, tail: Str)
    requires forall i | 0 <= i < |white| :: IsWhite(white[i])
    requires sign in {"", "+", "-"}
    requires tail == [] || !IsDigit(tail[0])
    ensures Stoi(white + (Text(sign) + (Zeros(zeros) + Decimal(n) + tail))) == Signed(sign, n)
  {
    var digits := Zeros(zeros) + Decimal(n) + tail;
    DigitsStart(zeros, n, tail);
    DigitsRead(zeros, n, tail);
    hide Decimal, Zeros, ReadDigits;
    assert Text("") == [] && Text("+") == [0x2B] && Text("-") == [0x2D];
    WhiteSkipped(white, Text(sign) + digits);
    var rest := Text(sign) + digits;
    assert sign != "" ==> rest[1..] == digits;
    assert sign == "" ==> rest == digits && digits[0..] == digits;
  }

  function Zeros(z: nat): Str {
    seq(z, _ => '0' as int as Byte)
  }

  lemma DigitsStart(zeros: nat, n: nat, tail: Str)
    ensures var s := Zeros(zeros) + Decimal(n) + tail; s != [] && IsDigit(s[0])
  {
    var s := Zeros(zeros) + Decimal(n) + tail;
    assert s[0] == if zeros > 0 then Zeros(zeros)[0] else Decimal(n)[0];
  }

  lemma DigitsRead(zeros: nat, n: nat, tail: Str)
    requires tail == [] || !IsDigit(tail[0])
    ensures ReadDigits(Zeros(zeros) + Decimal(n) + tail, 0) == n
  {
    assert Zeros(zeros) + Decimal(n) + tail == Zeros(zeros) + (Decimal(n) + tail);
    ReadZeros(zeros, Decimal(n) + tail);
    ReadDigitsAppend(Decimal(n), tail, 0);
    ReadDecimal(n);
  }

  /** There is no number if no digit follows the white space and the sign. */
  lemma StoiNothing(white: Str, sign: string, tail: Str)
    requires forall i | 0 <= i < |white| :: IsWhite(white[i])
    requires sign in {"", "+", "-"}
    requires tail == [] || !IsDigit(tail[0])
    requires sign == "" && tail != [] ==> !IsWhite(tail[0]) && tail[0] as int !in {'+' as int, '-' as int}
    ensures Stoi(white + (Text(sign) + tail)) == NoNumber
  {
    assert Text("") == [] && Text("+") == [0x2B] && Text("-") == [0x2D];
    WhiteSkipped(white, Text(sign) + tail);
    var rest := Text(sign) + tail;
    assert sign != "" ==> rest[1..] == tail;
    assert sign == "" ==> rest == tail;
  }

  /** Numbers that fit an `int` read back as printed. */
  lemma StoiPrinted(n: nat)
    requires n < 0x8000_0000
    ensures Stoi(Printed(n)) == Int(n)
  {
    ReadDecimal(n);
    var s := Decimal(n);
    assert IsDigit(s[0]);
    assert RunLength(White, s) == 0;
    assert s[0..] == s;
  }
}
