/** The units of the kept text: those of the text itself, and the space if the text holds white space. */
module KeptUnits {
  import opened Bytes
  import opened Units
  import opened Regex
  import opened PreTokenizing
  import opened KeptText

  predicate HasWhite(s: Str) {
    exists i :: 0 <= i < |s| && IsWhite(s[i])
  }

  /** Behind the first byte of a unit nothing is ASCII. */
  predicate Tailed(us: seq<Str>) {
    forall i, j :: 0 <= i < |us| && 1 <= j < |us[i]| ==> us[i][j] >= 0x80
  }

  lemma {:induction false} SplitTailed(mode: Mode, s: Str)
    requires Splittable(mode, s)
    ensures Tailed(SplitUnits(mode, s))
    decreases |s|
  {
    if mode.ASCII? || s == [] {
    } else {
      var n := LeadLength(s[0]);
      SplitTailed(mode, s[n..]);
      assert SplitCodePoints(s) == [s[..n]] + SplitCodePoints(s[n..]);
    }
  }

  lemma {:induction false} RespaceWord(word: Str, rest: Str)
    requires NoWhite(word)
    ensures Respace(word + rest) == word + Respace(rest)
  {
    if word == [] {
      assert word + rest == rest;
    } else {
      assert (word + rest)[1..] == word[1..] + rest;
      RespaceWord(word[1..], rest);
    }
  }

  /** White bytes are units of their own. */
  lemma {:induction false} WhitePrefix(mode: Mode, us: seq<Str>, n: nat)
    requires AllUnits(mode, us) && n <= RunLength(White, Concat(us))
    ensures n <= |us| && Concat(us[n..]) == Concat(us)[n..]
  {
    if n == 0 {
      assert us[0..] == us;
    } else {
      var s := Concat(us);
      assert us != [] && IsUnit(mode, us[0]) && s[0] == us[0][0] && |us[0]| == 1;
      assert s[1..] == Concat(us[1..]);
      WhitePrefix(mode, us[1..], n - 1);
      assert us[1..][n - 1..] == us[n..] && s[1..][n - 1..] == s[n..];
    }
  }

  /** What the first unit or white span of a text becomes, and the units behind it. */
  lemma FirstRespaced(mode: Mode, us: seq<Str>) returns (v: Str, n: nat)
    requires us != [] && AllUnits(mode, us) && Tailed(us)
    ensures 1 <= n <= |us| && IsUnit(mode, v)
    ensures Respace(Concat(us)) == v + Respace(Concat(us[n..]))
    ensures if IsWhite(Concat(us)[0]) then v == [SPACE] else v == us[0] && n == 1
    ensures Concat(us) != [] && HasWhite(Concat(us)) ==> IsWhite(Concat(us)[0]) || HasWhite(Concat(us[n..]))
    ensures HasWhite(Concat(us[n..])) || IsWhite(Concat(us)[0]) ==> HasWhite(Concat(us))
  {
    var s := Concat(us);
    assert IsUnit(mode, us[0]) && s[0] == us[0][0];
    if IsWhite(s[0]) {
      n := SpanLength(s);
      v := [SPACE];
      SpanInRun(s);
      WhitePrefix(mode, us, n);
      WhiteFront(s, n);
    } else {
      n := 1;
      v := us[0];
      assert NoWhite(v) by { assert forall j | 1 <= j < |v| :: v[j] >= 0x80; }
      assert s == v + Concat(us[1..]);
      RespaceWord(v, Concat(us[1..]));
      WhiteBehind(v, Concat(us[1..]));
    }
  }

  lemma WhiteFront(s: Str, n: nat)
    requires s != [] && IsWhite(s[0]) && n <= |s|
    ensures HasWhite(s)
  {
  }

  lemma WhiteBehind(word: Str, rest: Str)
    requires NoWhite(word)
    ensures HasWhite(word + rest) <==> HasWhite(rest)
  {
    var s := word + rest;
    if HasWhite(s) {
      var i :| 0 <= i < |s| && IsWhite(s[i]);
      assert rest[i - |word|] == s[i];
    }
    if HasWhite(rest) {
      var i :| 0 <= i < |rest| && IsWhite(rest[i]);
      assert s[|word| + i] == rest[i];
    }
  }

  /** Each of `vs` is one of `us`, or a space if `white`. */
  predicate Drawn(vs: seq<Str>, us: seq<Str>, white: bool) {
    forall i :: 0 <= i < |vs| ==> vs[i] in us || (vs[i] == [SPACE] && white)
  }

  /** The kept text is made of units of the text, and of spaces exactly if the text holds white space. */
  lemma {:induction false} RespacedUnits(mode: Mode, us: seq<Str>) returns (vs: seq<Str>)
    requires AllUnits(mode, us) && Tailed(us)
    ensures AllUnits(mode, vs) && Concat(vs) == Respace(Concat(us))
    ensures Drawn(vs, us, HasWhite(Concat(us)))
    ensures HasWhite(Concat(us)) ==> [SPACE] in vs
    decreases |us|
  {
    if us == [] {
      vs := [];
      RespaceNothing();
    } else {
      var v, n := FirstRespaced(mode, us);
      hide HasWhite, Respace, IsWhite, Tailed, IsUnit;
      TailedRest(us, n);
      var rest := RespacedUnits(mode, us[n..]);
      DrawnBehind(v, rest, us, n, HasWhite(Concat(us)), HasWhite(Concat(us[n..])));
      vs := [v] + rest;
      assert vs[1..] == rest;
      hide Drawn;
    }
  }

  lemma DrawnBehind(v: Str, rest: seq<Str>, us: seq<Str>, n: nat, white: bool, whiteBehind: bool)
    requires n <= |us| && (whiteBehind ==> white)
    requires v in us || (v == [SPACE] && white)
    requires Drawn(rest, us[n..], whiteBehind)
    ensures Drawn([v] + rest, us, white)
  {
  }

  lemma TailedRest(us: seq<Str>, n: nat)
    requires Tailed(us) && n <= |us|
    ensures Tailed(us[n..])
  {
  }

  /** An ASCII byte is a unit of its own. */
  lemma {:induction false} AsciiUnit(mode: Mode, us: seq<Str>, c: Byte)
    requires AllUnits(mode, us) && Tailed(us) && c in Concat(us) && c < 0x80
    ensures [c] in us
  {
    assert us != [] && Concat(us) == us[0] + Concat(us[1..]) && IsUnit(mode, us[0]);
    if c in us[0] {
      var j :| 0 <= j < |us[0]| && us[0][j] == c;
      assert us[0] == [c];
    } else {
      AsciiUnit(mode, us[1..], c);
    }
  }
}
