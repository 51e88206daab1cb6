/** What the two sums of the fertility measure count. */
module FertilityLaws {
  import opened Bytes
  import opened Sequences
  import opened Occurrences
  import opened Regex
  import opened Encoding
  import opened Tokenizer

  /** The texts the measure looks at: the first `limit` that are not empty. */
  function Sample(texts: seq<Str>, limit: int): seq<Str> {
    if texts == [] || limit <= 0 then []
    else if texts[0] == [] then Sample(texts[1..], limit)
    else [texts[0]] + Sample(texts[1..], limit - 1)
  }

  function NonEmpty(texts: seq<Str>): seq<Str> {
    if texts == [] then [] else (if texts[0] == [] then [] else [texts[0]]) + NonEmpty(texts[1..])
  }

  lemma {:induction false} SampleMeans(texts: seq<Str>, limit: int)
    ensures var all := NonEmpty(texts);
      Sample(texts, limit) == if limit <= 0 then [] else if limit >= |all| then all else all[..limit]
  {
    if texts == [] || limit <= 0 {
    } else if texts[0] == [] {
      SampleMeans(texts[1..], limit);
    } else {
      SampleMeans(texts[1..], limit - 1);
      var rest := NonEmpty(texts[1..]);
      assert NonEmpty(texts) == [texts[0]] + rest;
      if limit <= |rest| {
        assert ([texts[0]] + rest)[..limit] == [texts[0]] + rest[..limit - 1];
      }
    }
  }

  /** The ids of each text, none if it cannot be encoded. */
  function IdsOfEach(m: Model, texts: seq<Str>): seq<seq<int>> {
    seq(|texts|, i requires 0 <= i < |texts| =>
      var encoded := Encode(m, texts[i], false); if encoded.Ok? then encoded.value else [])
  }

  /** Whether a word starts at each byte: no blank, behind a blank or at the front. */
  function Starts(s: Str): seq<bool> {
    seq(|s|, i requires 0 <= i < |s| => !IsBlank(s[i]) && (i == 0 || IsBlank(s[i - 1])))
  }

  function StartsOfEach(texts: seq<Str>): seq<seq<bool>> {
    seq(|texts|, i requires 0 <= i < |texts| => Starts(texts[i]))
  }

  lemma {:induction false} WordStartsCounted(s: Str, end: nat)
    requires end <= |s|
    ensures WordStarts(s, end) == multiset(Starts(s)[..end])[true]
  {
    if end == 0 {
    } else {
      WordStartsCounted(s, end - 1);
      assert Starts(s)[..end] == Starts(s)[..end - 1] + [Starts(s)[end - 1]];
    }
  }

  lemma IdsBehind(m: Model, text: Str, rest: seq<Str>)
    ensures var encoded := Encoding.Encode(m, text, false);
      |Flatten(IdsOfEach(m, [text] + rest))| ==
        (if encoded.Ok? then |encoded.value| else 0) + |Flatten(IdsOfEach(m, rest))|
  {
    hide Encoding.Encode;
    assert IdsOfEach(m, [text] + rest)[1..] == IdsOfEach(m, rest);
  }

  lemma CountJoined(a: seq<bool>, b: seq<bool>)
    ensures multiset(a + b)[true] == multiset(a)[true] + multiset(b)[true]
  {
  }

  lemma StartsFirst(text: Str, rest: seq<Str>)
    ensures Flatten(StartsOfEach([text] + rest)) == Starts(text) + Flatten(StartsOfEach(rest))
  {
    hide Starts;
    assert StartsOfEach([text] + rest)[1..] == StartsOfEach(rest);
  }

  lemma StartsBehind(text: Str, rest: seq<Str>)
    ensures multiset(Flatten(StartsOfEach([text] + rest)))[true] ==
            WordStarts(text, |text|) + multiset(Flatten(StartsOfEach(rest)))[true]
  {
    WordStartsCounted(text, |text|);
    AllStarts(text);
    StartsFirst(text, rest);
    CountJoined(Starts(text), Flatten(StartsOfEach(rest)));
    hide *;
  }

  lemma NoTexts(m: Model)
    ensures |Flatten(IdsOfEach(m, []))| == 0 && multiset(Flatten(StartsOfEach([])))[true] == 0
  {
  }

  lemma {:induction false} SampledCounts(m: Model, texts: seq<Str>, limit: int)
    ensures var sample := Sample(texts, limit);
      Sampled(m, texts, limit) == (|Flatten(IdsOfEach(m, sample))|, multiset(Flatten(StartsOfEach(sample)))[true])
  {
    hide Encoding.Encode, WordStarts, IdsOfEach, StartsOfEach, Flatten;
    if texts == [] || limit <= 0 {
      NoTexts(m);
    } else if texts[0] == [] {
      SampledCounts(m, texts[1..], limit);
    } else {
      SampledCounts(m, texts[1..], limit - 1);
      IdsBehind(m, texts[0], Sample(texts[1..], limit - 1));
      StartsBehind(texts[0], Sample(texts[1..], limit - 1));
    }
  }

  lemma AllStarts(s: Str)
    ensures Starts(s)[..|s|] == Starts(s)
  {
  }

  /**
   * The token sum is the number of ids in the encodings of the first `limit` non-empty texts, and the word sum the
   * number of places in them where a word starts.
   */
  lemma SampledMeans(m: Model, texts: seq<Str>, limit: int)
    ensures var sample := Sample(texts, limit);
      Sampled(m, texts, limit) == (|Flatten(IdsOfEach(m, sample))|, |Places(StartsOfEach(sample), true)|)
  {
    SampledCounts(m, texts, limit);
    PlacesCount(StartsOfEach(Sample(texts, limit)), true);
    hide Sampled, Sample, Places, Flatten, StartsOfEach, IdsOfEach;
  }
}
