/** Byte strings, as `std::string` holds them: concatenation, order, and the characters the tokenizer names. */
module Bytes {
  newtype Byte = x: int | 0 <= x < 0x100
  type Str = seq<Byte>

  const TAB: Byte := 0x09
  const LF: Byte := 0x0A
  const VT: Byte := 0x0B
  const FF: Byte := 0x0C
  const CR: Byte := 0x0D
  const SPACE: Byte := 0x20
  const QUOTE: Byte := 0x27
  const LESS_THAN: Byte := 0x3C

  /** The bytes of an ASCII literal. */
  function Text(s: string): Str {
    seq(|s|, i requires 0 <= i < |s| => if s[i] as int < 0x100 then (s[i] as int) as Byte else 0)
  }

  function Concat(parts: seq<Str>): Str {
    if parts == [] then [] else parts[0] + Concat(parts[1..])
  }

  lemma {:induction false} ConcatAppend(a: seq<Str>, b: seq<Str>)
    ensures Concat(a + b) == Concat(a) + Concat(b)
  {
    if a == [] {
      assert a + b == b;
    } else {
      assert (a + b)[1..] == a[1..] + b;
      ConcatAppend(a[1..], b);
    }
  }

  lemma ConcatThree(a: Str, b: Str, c: Str)
    ensures Concat([a, b, c]) == a + b + c
  {
    var ps := [a, b, c];
    assert ps[1..] == [b, c] && ps[1..][1..] == [c] && [c][1..] == [];
    assert Concat([c]) == c + [] == c;
    assert Concat([b, c]) == b + c;
    assert a + (b + c) == a + b + c;
  }

  /** `operator<` on strings: lexicographic, bytes compared unsigned. */
  predicate Before(a: Str, b: Str) {
    b != [] && (a == [] || a[0] < b[0] || (a[0] == b[0] && Before(a[1..], b[1..])))
  }

  /** `a` is a proper prefix of `b`, or smaller at the first byte in which they differ. */
  lemma {:induction false} BeforeMeans(a: Str, b: Str)
    ensures Before(a, b) <==> exists k :: FirstLess(a, b, k)
  {
    if a == [] || b == [] || a[0] != b[0] {
      assert FirstLess(a, b, 0) <==> Before(a, b);
    } else {
      BeforeMeans(a[1..], b[1..]);
      forall k | FirstLess(a[1..], b[1..], k) ensures FirstLess(a, b, k + 1) {
        assert a[..k + 1] == [a[0]] + a[1..][..k] && b[..k + 1] == [b[0]] + b[1..][..k];
      }
      forall k | FirstLess(a, b, k) ensures k > 0 && FirstLess(a[1..], b[1..], k - 1) {
        assert a[1..][..k - 1] == a[..k][1..] && b[1..][..k - 1] == b[..k][1..];
      }
    }
  }

  predicate FirstLess(a: Str, b: Str, k: int) {
    && 0 <= k <= |a| && k < |b|
    && a[..k] == b[..k]
    && (k < |a| ==> a[k] < b[k])
  }

  lemma {:induction false} BeforeTotal(a: Str, b: Str)
    ensures Before(a, b) || Before(b, a) || a == b
  {
    if a == [] || b == [] || a[0] != b[0] {
    } else {
      BeforeTotal(a[1..], b[1..]);
      if a[1..] == b[1..] {
        assert a == [a[0]] + a[1..] && b == [b[0]] + b[1..];
      }
    }
  }

  lemma {:induction false} BeforeTransitive(a: Str, b: Str, c: Str)
    requires Before(a, b) && Before(b, c)
    ensures Before(a, c)
  {
    if a == [] || a[0] != b[0] || b[0] != c[0] {
    } else {
      BeforeTransitive(a[1..], b[1..], c[1..]);
    }
  }

  lemma {:induction false} BeforeIrreflexive(a: Str)
    ensures !Before(a, a)
  {
    if a == [] {
    } else {
      BeforeIrreflexive(a[1..]);
    }
  }
}
