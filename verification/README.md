# A verified model of the chatbot's tokenizer, batching, server protocols and JSON output

This project models the parts of the repository whose correctness rests on facts that no single function shows, and
proves those facts for every input, every run and every reachable state.

- **Byte pair encoding** (`src/BPETokenizer.cpp`). A corpus is cut into words by an ECMAScript pattern, the words into
  units (bytes or UTF-8 code points), and merge rules are learned by counting neighbouring pairs. The rules are then
  replayed on new words through a per-thread memo cache. Ids are handed out as the current size of the vocabulary,
  which is sound only because no two rules ever build the same string: `MergeLearning.LearnedMergesDistinct` proves it
  from the fact that a merge pass factors across every boundary that survives it (`Merging.ReplaySplits`). On it rest
  the tables (`Vocabulary.BuiltTable`), the round trips of text (`Encoding.BuiltRoundTrip`) and of the vocabulary file
  (`SaveAndLoad.SaveThenLoad`), and the agreement of replay with training (`TrainingText.TrainingSplit`).
- **Dynamic batching** (`src/BatchProcessor.hpp`). The greedy grouping of length-sorted sequences conserves its input,
  bounds its padding, and uses as few batches as any grouping at all (`BatchOptimality.GreedyOptimal`).
- **Three protocols** (`src/ChatbotAPI.cpp`, `src/BatchedInferenceEngine.hpp`), each as the atomic steps of any number
  of threads: starting and stopping the server, turns on shared sessions, and the queue in front of the inference
  worker. Each has safety over all runs and a proof that it can always run to its end; stopping the server does so
  under every fair schedule.
- **JSON strings** (`ChatbotAPI::escape_json_string`), against the string grammar of section 7 of RFC 8259 and the
  UTF-8 grammar of section 4 of RFC 3629.

The modules follow the program: `Units`, `Regex`, `PreTokenizing`, `KeptText`, `WhiteSpaceLaws`, `KeptUnits`,
`PairCounting`, `Merging`, `MergeLearning`, `OrderIndependence`, `Vocabulary`, `CorpusLaws`, `ThreadCache`, `Encoding`,
`TrainingText`, `CacheCoherence`, `Escaping`, `VocabFile`, `LoadLaws`, `SaveAndLoad`, the class in `Tokenizer` and
`FertilityLaws` for the tokenizer; `BatchProcessing` and `BatchOptimality`; `ServerLifecycle`, `SessionTurns`,
`SessionTable` and `RequestQueue`; `JsonEscape`. `Bytes`, `Results`, `Sequences`, `FiniteSets` and `Occurrences` serve
them. Code that works step by step is a method with loops or a class whose methods update its fields, proved against
functions; the laws are lemmas about those functions, stated in terms of the texts, bytes, lines and places that go in.
The protocols are state machines on values, one step for each atomic action.

Where the code does not do what one would expect, or what the documentation promises, the model follows the code, a
lemma gives a concrete input, and another says exactly when the code does, in terms of what is there before the call:

- White space. `docs/development/reference/source/BPETokenizer.md:239` and
  `docs/development/guides/TECHNICAL_DEBT.md:4883-4884` say that every white run becomes a single space (lines 243-244
  of the former note an inner double space that stays). `a`, two spaces, `b` keeps both
  (`WhiteSpaceLaws.TwoSpacesSurvive`); `WhiteSpaceLaws.RespaceIsSquash` says exactly which texts are kept as promised,
  and `KeptText.PreTokensKeepText` what every text becomes. Ordinary white space obeys another law, that an inner run of
  two or more becomes two spaces and any other run one. Vertical tab and form feed are punctuation to the token pattern
  but white space to the squashing, so runs with them may not (`WhiteSpaceLaws.VerticalTabsMerge`), and
  `WhiteSpaceLaws.RespaceIsCollapse` says exactly when. A second pass may even keep less than the first
  (`WhiteSpaceLaws.ThreeSpansShrink`); `WhiteSpaceLaws.KeptIdempotent` and `Encoding.RoundTripIdempotent` say exactly
  when it does not. The conditions look at the bytes of each white run: its length, and the prefix of it that matches
  ` ?[\v\f]+`.
- Training text. A corpus can hold text its own vocabulary cannot spell, because a tab becomes a space that was never
  counted (`TrainingText.TabbedCorpusHasUnknown`). With every counted unit admitted, a training text encodes with the
  unknown id exactly when it holds white space and the corpus holds no space (`TrainingText.TrainingTextUnknown`), and
  any text exactly when its kept form holds a unit that was not counted (`TrainingText.UnknownForAnyText`).
- The vocabulary file. Lines that start with `#` or with one of four header keywords are not read as tokens or rules
  (`SaveAndLoad.HashUnitIsLost`); `SaveAndLoad.SaveThenLoad` is the exact condition.
- The final drain of the inference engine. It takes one batch, so requests behind it are never answered, nor is one
  pushed after it (`RequestQueue.LatePushIsLost`). A shutdown loses nothing, however the threads run on, exactly when,
  at the moment it closes the engine, at most one batch is left to the drain and nobody is about to push
  (`RequestQueue.ShutdownLosesNothing`, `RequestQueue.ShutdownAnswers`). What is left is the queue, without its first
  request if the worker has already read `running_` and is about to take that one
  (`RequestQueue.TakenAcrossShutdown`).

## Model

| member | source | states |
|---|---|---|
| Units.Utf8SplitCodepoints | src/BPETokenizer.cpp:73-92 | the loop returns the split of the text, which `SplitKeepsText`, `SplitGivesUnits` and `UnitsUnique` characterise |
| Units.IsValidUtf8 | src/BPETokenizer.cpp:97-128 | true exactly when the text is a sequence of lead bytes each followed by as many continuation bytes as it announces |
| Units.SplitKeepsText | src/BPETokenizer.cpp:73-92 | the pieces of any bytes, valid or not, put together again are the text |
| Units.SplitGivesUnits | src/BPETokenizer.cpp:73-92 | on text that passes the check every piece is one whole code point (one byte in ASCII mode) |
| Units.UnitsUnique | src/BPETokenizer.cpp:73-92 | units are a prefix code: two lists of units that spell the same text are the same list |
| Units.CutAtAscii | src/BPETokenizer.cpp:97-128 | cutting valid text next to an ASCII byte leaves two valid texts |
| Units.ValidConcat | src/BPETokenizer.cpp:97-128 | valid texts put together are valid |
| Units.MasksAreRanges | src/BPETokenizer.cpp:73-128 | the bit masks of the lead and continuation tests accept exactly the byte ranges the model uses |
| Regex.ScannerIsPattern | src/BPETokenizer.cpp:24-27 | for both patterns a backtracking ECMAScript matcher always matches at the front of a non-empty text, and its preferred match is the one the one-byte-lookahead scanner takes |
| Regex.WhiteLookaheadMatches | src/BPETokenizer.cpp:24-27 | `\s+(?!\S)` prefers the longest white prefix with white space or nothing behind it, and fails when there is none |
| Regex.SpacedRunMatches | src/BPETokenizer.cpp:24-27 | ` ?[class]+` prefers the optional space and the whole run of the class, and fails when no run follows |
| Regex.PatternsAsWritten | src/BPETokenizer.cpp:24-27 | written out, the alternatives of the two modelled patterns are those of the two literals, letter by letter and in order |
| Regex.ClassesAsWritten | src/BPETokenizer.cpp:24-27 | each class holds the bytes its text names |
| PreTokenizing.ToLower | src/BPETokenizer.cpp:283-295 | the byte `A` + k becomes `a` + k for each of the 26 capitals, and every other byte stays |
| PreTokenizing.NormalizeMeans | src/BPETokenizer.cpp:283-295 | LOWERCASE does just that to every text, so that no capital is left, and CASED changes nothing |
| PreTokenizing.SameButCaseExactly | src/BPETokenizer.cpp:283-295 | two texts are normalised alike under LOWERCASE exactly when they differ at most in the case of ASCII letters |
| PreTokenizing.CaseIgnored | src/BPETokenizer.cpp:274-337 | such texts are accepted or refused together and have the same LOWERCASE pre-tokens |
| PreTokenizing.PreTokenize | src/BPETokenizer.cpp:274-337 | an encoding error exactly on invalid UTF-8, otherwise the squashed matches of the pattern over the normalised text |
| PreTokenizing.PiecesValid | src/BPETokenizer.cpp:274-337 | in UNICODE mode no pre-token cuts a code point apart |
| PreTokenizing.PiecesUnmixed | src/BPETokenizer.cpp:24-27 | no pre-token is empty or holds both `<` and an ASCII letter |
| KeptText.PreTokensKeepText | src/BPETokenizer.cpp:274-337 | for every text, the pre-tokens put together are the text with each span of white bytes made one space |
| WhiteSpaceLaws.RespaceIsCollapse | src/BPETokenizer.cpp:274-337 | an inner white run of two or more bytes is kept as two spaces and any other run as one, throughout the text, exactly when each white run is a single byte, or does not start with ` ?[\v\f]+`, or (trailing) is nothing but that, or (inner) has behind it just one blank or one more ` [\v\f]+` |
| WhiteSpaceLaws.RespaceIsSquash | docs/development/reference/source/BPETokenizer.md:239 | every white run is kept as a single space, as documented, exactly when each is a single byte, or is exactly ` ?[\v\f]+`, or stands at the end and does not start with that |
| WhiteSpaceLaws.TwoSpacesSurvive | docs/development/reference/source/BPETokenizer.md:239 | `a`, two spaces, `b` keeps both spaces, where the documented form has one |
| WhiteSpaceLaws.NoVerticalCollapses | src/BPETokenizer.cpp:24-27 | without vertical tab and form feed every run obeys the two-space law |
| WhiteSpaceLaws.VerticalTabsMerge | src/BPETokenizer.cpp:24-27 | `a`, two vertical tabs, `b` is kept as `a`, one space, `b`, where two ordinary white bytes would be two |
| WhiteSpaceLaws.SpansFromBytes | src/BPETokenizer.cpp:274-337 | the number of spaces a white run becomes is as one of the laws asks exactly when the run's bytes meet that law's condition |
| WhiteSpaceLaws.KeptIdempotent | src/BPETokenizer.cpp:274-337 | the kept text is kept unchanged the next time exactly when each white run is a single byte, does not start with ` ?[\v\f]+`, is nothing but that, or (inner) has behind it just one blank or one more ` [\v\f]+` |
| WhiteSpaceLaws.ObeyedLasts | src/BPETokenizer.cpp:274-337 | a text that obeys the single-space or the two-space law is kept unchanged the next time |
| WhiteSpaceLaws.ThreeSpansShrink | src/BPETokenizer.cpp:274-337 | `a`, three times a space and a vertical tab, `b` is kept with three spaces, and that with two |
| KeptUnits.RespacedUnits | src/BPETokenizer.cpp:274-337 | the respaced text of a list of units is made of those units, and of spaces exactly if the text holds white space |
| PairCounting.CountWord | src/BPETokenizer.cpp:361-370 | adds exactly the neighbouring pairs of one word to the counts |
| PairCounting.GetMostFrequentPair | src/BPETokenizer.cpp:357-384 | for words without empty tokens the empty pair exactly when no two tokens are neighbours; otherwise the pair that stands side by side in the most places (word and position), and of several the lexicographically smallest, whatever the order of the hash table |
| PairCounting.BestUnique | src/BPETokenizer.cpp:376-383 | at most one pair has the highest count and then the smallest strings |
| PairCounting.PairCountsAdjacent | src/BPETokenizer.cpp:361-370 | a pair is counted exactly when it occurs side by side in some word |
| PairCounting.PairCountsPlaces | src/BPETokenizer.cpp:361-370 | the count of a pair is the size of the set of places, word and position, where it stands side by side |
| Bytes.BeforeMeans | src/BPETokenizer.cpp:376-383 | one string is before another exactly when it is a proper prefix of it or smaller at the first byte in which they differ |
| PairCounting.NoPairsLeft | src/BPETokenizer.cpp:372-374 | nothing is counted exactly when no word has two tokens |
| Merging.MergePassKeepsText | src/BPETokenizer.cpp:386-400 | a merge pass keeps the word's text |
| Merging.MergePassLeftmost | src/BPETokenizer.cpp:386-400 | the pass rewrites the first occurrence of the pair and continues behind it |
| Merging.MergePassWithoutPair | src/BPETokenizer.cpp:386-400 | the pass leaves a word without the pair alone |
| Merging.MergePassShortens | src/BPETokenizer.cpp:386-400 | the pass shortens a word exactly when the pair occurs in it |
| Merging.MergePassRemovesPair | src/BPETokenizer.cpp:386-400 | after the pass the pair occurs nowhere in the word |
| Merging.MergePassSplits | src/BPETokenizer.cpp:386-400 | a pass factors across every boundary of its result |
| Merging.ReplaySplits | src/BPETokenizer.cpp:449-461 | replaying any rules factors across every boundary that survives them all |
| Merging.AdjacentComesFrom | src/BPETokenizer.cpp:449-461 | two neighbours in a replayed word come from one stretch of the original word, which by itself replays to just those two |
| Merging.CollapsedStaysWhole | src/BPETokenizer.cpp:449-461 | a stretch that one rule turns into a single token stays a single token under all later rules |
| MergeLearning.ReplayAgreesWithTraining | src/BPETokenizer.cpp:217-254 | for every corpus and merge count, replaying the learned rules on a corpus word gives that word's segmentation when learning stops |
| MergeLearning.LearnedFoundInTurn | src/BPETokenizer.cpp:238-254 | each learned rule is found side by side in some word under the rules before it |
| MergeLearning.LearnedMostFrequent | src/BPETokenizer.cpp:238-254 | each learned rule is the pair that stands in the most places of the words as the rules before it leave them, and of several the lexicographically smallest |
| MergeLearning.MergedStringsDistinct | src/BPETokenizer.cpp:246-252 | rules found in turn never build the same string |
| MergeLearning.MergedStringIsNoUnit | src/BPETokenizer.cpp:246-252 | a merged string is never a single unit |
| MergeLearning.LearnedMergesDistinct | scripts/audit_vocab_merges.py:13 | from a fresh tokenizer no rule is recorded twice, no two rules build one string, and none builds a unit or has an empty half |
| MergeLearning.RoundMakesProgress | src/BPETokenizer.cpp:238-254 | a round keeps every word's text, leaves the merged pair nowhere and strictly lowers the token count |
| MergeLearning.LearningIsBounded | src/BPETokenizer.cpp:238-254 | at most as many rules as asked for and as units minus words; fewer than asked for only when every word has become one token |
| OrderIndependence.PairCountsPermutes | src/BPETokenizer.cpp:361-370 | the counts do not depend on the order of the words |
| OrderIndependence.LearnPermutes | src/BPETokenizer.cpp:217-254 | permuted words give the same list of rules and permuted segmentations |
| Vocabulary.BuiltTable | src/BPETokenizer.cpp:194-252 | after building on a fresh tokenizer the ids are exactly 0..n-1, the two tables are inverse to each other, and n is at most the larger of 4 and the size asked for |
| Vocabulary.FreshMeans | src/BPETokenizer.cpp:38-56 | a fresh vocabulary holds `<pad>`, `<unk>`, `<bos>`, `<eos>` under 0 to 3 |
| CorpusLaws.UnitsCounted | src/BPETokenizer.cpp:153-186 | the count of a unit is the size of the set of places, text and position, where it stands |
| CorpusLaws.AdmittedUnits | src/BPETokenizer.cpp:194-206 | the single units of a built vocabulary all stand in at least `frequency_threshold` places; they are all such units if these fit under the size asked for, otherwise as many as fit; their ids are 4 and on |
| CorpusLaws.BuiltToSize | src/BPETokenizer.cpp:238-254 | a built vocabulary is smaller than asked for only if the rules turn every word of the corpus into one token |
| CorpusLaws.CorpusSpellsKept | src/BPETokenizer.cpp:218-236 | the words of a corpus, unit after unit, spell the kept texts one after the other |
| Vocabulary.MergedIsNew | src/BPETokenizer.cpp:249-252 | a learned string is neither a special token nor a base unit, so it takes a new id |
| Vocabulary.StretchIsNoSpecial | src/BPETokenizer.cpp:24-27 | no stretch of a corpus word spells a special token |
| Vocabulary.BaseSize | src/BPETokenizer.cpp:196-206 | how many base units are admitted depends on the counts only, not on the order of the hash table |
| Vocabulary.RulesIgnoreOrder | src/BPETokenizer.cpp:146-254 | building on any permutation of the texts, with any hash order, learns the same list of rules and the same vocabulary size |
| ThreadCache.ThreadCaches.Find | src/BPETokenizer.cpp:423-435 | the entry of the key moves to the back, or a new one starts there and a full list drops its first |
| ThreadCache.ThreadCaches.Remember | src/BPETokenizer.cpp:463-464 | the word is added to the entry at the back, emptied first when it is full |
| ThreadCache.HoldsMostRecentlyUsed | src/BPETokenizer.cpp:419-435 | after any lookups the list is the up to four last used states, all different, in order of last use |
| ThreadCache.RecentlyUsedWithout | src/BPETokenizer.cpp:423-435 | how the list of recently used states follows from that of the history without one state |
| ThreadCache.RecentlyUsedMeans | src/BPETokenizer.cpp:419-435 | a state is among the last n exactly if fewer than n different states were used since its last use |
| ThreadCache.RecentlyUsedOrder | src/BPETokenizer.cpp:419-435 | the states behind it in the list were all used since its last use |
| ThreadCache.MemoryStaysBounded | src/BPETokenizer.cpp:463-464 | after any lookups no state holds more than 65536 words |
| CacheCoherence.LookupCoherent | src/BPETokenizer.cpp:402-466 | a lookup in a coherent cache returns the uncached split and leaves the cache coherent |
| CacheCoherence.StepKeepsInv | src/BPETokenizer.hpp:106-112 | constructing, copying, destroying, renormalising, building, loading, applying and probing all keep: every cache key stands for one mode and rule list, and every cached word is split as they say |
| CacheCoherence.CachedIsUncached | src/BPETokenizer.cpp:402-466 | after every run of these operations, on any tokenizers and threads, a cached split is what the merge loop would compute now |
| CacheCoherence.StaleWithoutNewKey | src/BPETokenizer.cpp:246-247 | without a new key a change of rules that matters for a word would be served the old split (the change of normalization at 58-61 changes no split, so its new key is not needed for this) |
| Encoding.RoundTrip | src/BPETokenizer.cpp:472-537 | on any consistent tokenizer, when every token of a valid text is in the vocabulary, decoding the encoding gives the kept text, inside the two markers when they are asked for and not skipped |
| Encoding.CaseEncodesAlike | src/BPETokenizer.cpp:486-509 | a LOWERCASE tokenizer encodes texts that differ only in the case of ASCII letters to the same ids or the same error |
| Encoding.EncodeMarks | src/BPETokenizer.cpp:486-509 | an error exactly for the empty text and for invalid UTF-8; the markers stand around the encoding without them |
| Encoding.EncodeEach | src/BPETokenizer.cpp:494-501 | one id for each token: its own if the vocabulary has it, otherwise the unknown id |
| Encoding.DecodeJoins | src/BPETokenizer.cpp:511-537 | no ids are an error; two lists of ids put together decode to the two texts put together, or to the error if either does |
| Encoding.DecodeOne | src/BPETokenizer.cpp:511-537 | one id: an error if negative, its token if it has one, nothing for an unknown id or a special token to be skipped |
| Encoding.BuiltRoundTrip | src/BPETokenizer.cpp:472-537 | so it is on a built tokenizer for every valid text whose kept units were admitted |
| Encoding.RoundTripIdempotent | src/BPETokenizer.cpp:472-537 | on a built tokenizer, encoding and decoding the kept text of a covered text gives the same text again exactly when each white run of the text meets the condition of `WhiteSpaceLaws.KeptIdempotent` |
| Encoding.NeverSpecialIds | src/BPETokenizer.cpp:486-509 | without markers no text encodes to the pad, bos or eos id, whatever literal markers it holds |
| Encoding.TokenIsNoSpecial | src/BPETokenizer.cpp:472-484 | no token of any text is spelled like a special token, under any rules |
| Encoding.BuiltConsistent | src/BPETokenizer.cpp:146-254 | a built tokenizer's tables are inverse to each other, hold the special tokens under their ids and hold every merged string |
| Encoding.KeptValid | src/BPETokenizer.cpp:274-337 | the kept text of valid text is valid |
| Encoding.UnitsOfKept | src/BPETokenizer.cpp:274-337 | the units of the kept text are units of the normalised text, and spaces exactly if the text holds white space |
| TrainingText.TrainingSplit | src/BPETokenizer.cpp:440-461 | the split of any pre-token of any training text is that word's segmentation at the end of learning |
| TrainingText.UnknownExactly | src/BPETokenizer.cpp:494-501 | on a built tokenizer the unknown id appears exactly when some token of the text is a single unit that was not admitted |
| TrainingText.UnknownForAnyText | src/BPETokenizer.cpp:494-501 | with every counted unit admitted, a text encodes with the unknown id exactly when its kept form holds a unit that was not counted (for corpora without a space that hold vertical tab or form feed: texts without these three) |
| TrainingText.TrainingTextUnknown | src/BPETokenizer.cpp:174-186 | with every counted unit admitted, a training text (without vertical tab and form feed, or with a space counted) encodes with the unknown id exactly when it holds white space and no text of the corpus holds a space |
| TrainingText.CoveredHasNoUnknown | src/BPETokenizer.cpp:494-501 | with every unit of the kept text admitted the unknown id does not appear |
| TrainingText.TabbedCorpusHasUnknown | src/BPETokenizer.cpp:174-186 | a CASED tokenizer built on `a`, tab, `b` alone encodes that text with the unknown id, whatever its size |
| Tokenizer.CacheKeys.NewKey | src/BPETokenizer.cpp:33-36 | hands out the next key and never one handed out before |
| Tokenizer.MergeOnce | src/BPETokenizer.cpp:388-398 | the inner loop is one merge pass |
| Tokenizer.MergeTokens | src/BPETokenizer.cpp:386-400 | every word of the list becomes its merge pass, in place |
| Tokenizer.CorpusToWords | src/BPETokenizer.cpp:218-236 | an encoding error exactly if some text is invalid, otherwise the unit lists of all pre-tokens in order |
| Tokenizer.CountCorpusUnits | src/BPETokenizer.cpp:153-186 | counts exactly the units of the texts as pre-tokenization will see them |
| Tokenizer.BPETokenizer.constructor | src/BPETokenizer.cpp:38-56 | a fresh tokenizer of the mode with the four special tokens and a new cache key, as `CacheCoherence.Constructed` has it |
| Tokenizer.BPETokenizer.Copy | src/BPETokenizer.hpp:106-112 | a copy has the same fields and shares the cache key |
| Tokenizer.BPETokenizer.SetNormalization | src/BPETokenizer.cpp:58-61 | changes the normalization only, under a new cache key, as the change `Renormalizing` of `CacheCoherence.Altered` has it |
| Tokenizer.BPETokenizer.AdmitUnits | src/BPETokenizer.cpp:194-206 | admits units frequent enough, in an order of the hash table's choice, until the size is reached or none is left, under ids from 4 on |
| Tokenizer.BPETokenizer.RecordMerge | src/BPETokenizer.cpp:246-252 | the rule goes to the end of the list, its string under the current vocabulary size, under a new cache key |
| Tokenizer.BPETokenizer.BuildBpeMerges | src/BPETokenizer.cpp:217-271 | an error exactly on an invalid text, with nothing changed; otherwise the learned rules are appended, their strings entered and one cache key used for each (`Building`) |
| Tokenizer.BPETokenizer.BuildVocab | src/BPETokenizer.cpp:146-211 | from a fresh tokenizer the result is a built tokenizer in the sense of `BuiltTable`; on an invalid text only base units were admitted |
| Tokenizer.BPETokenizer.ApplyBpe | src/BPETokenizer.cpp:402-466 | the result and the thread's new cache are those of one lookup of the uncached split |
| Tokenizer.BPETokenizer.Tokenize | src/BPETokenizer.cpp:472-484 | through a coherent cache, the tokens the merge loop alone would give, and the cache stays coherent |
| Tokenizer.BPETokenizer.Encode | src/BPETokenizer.cpp:486-509 | through a coherent cache, the errors and ids that the round-trip laws speak of |
| Tokenizer.BPETokenizer.Decode | src/BPETokenizer.cpp:511-537 | an error for no ids or a negative id, otherwise the texts of the known ids in order, special ones left out if asked |
| Tokenizer.BPETokenizer.SaveVocab | src/BPETokenizer.cpp:560-601 | writes the header, one line for each token in some order and one for each rule in order |
| Tokenizer.BPETokenizer.LoadLine | src/BPETokenizer.cpp:682-733 | a line is first taken for a comment or a header if it reads as one, with the errors of each header |
| Tokenizer.BPETokenizer.LoadField | src/BPETokenizer.cpp:734-838 | a line of a section is parsed as that section's, with the errors of each |
| Tokenizer.BPETokenizer.LoadVocab | src/BPETokenizer.cpp:626-863 | the fields are those read so far when an error ends it, the repaired ones otherwise (what these are is in `LoadReads`, `LoadFails` and `HeaderAbsent`), always under a new cache key (`Reloading`) |
| Tokenizer.BPETokenizer.FinishLoading | src/BPETokenizer.cpp:843-863 | an error for an empty vocabulary or a missing special token, otherwise the special tokens and their ids are set right |
| Tokenizer.MeasureFertility | src/BPETokenizer.cpp:1071-1123 | the two sums over the sampled texts are those of uncached encoding, and the probe leaves every other tokenizer's cached splits right |
| Tokenizer.CountWords | src/BPETokenizer.cpp:1102-1112 | counts the bytes that are no blank and stand behind a blank or at the front |
| FertilityLaws.SampleMeans | src/BPETokenizer.cpp:1071-1123 | the sample is the first `sample_limit` of the texts that are not empty, all of them if there are fewer |
| FertilityLaws.SampledMeans | src/BPETokenizer.cpp:1071-1123 | the two sums are the number of ids in the encodings of the sample and the number of places in it where a byte that is no blank stands behind a blank or at the front |
| Escaping.EscapeToken | src/BPETokenizer.cpp:574-591 | the loop writes the escape that `UnescapeEscape` takes back |
| Escaping.UnescapeToken | src/BPETokenizer.cpp:651-679 | the loop reads escapes, and takes a backslash before any other letter for itself |
| Escaping.UnescapeEscape | src/BPETokenizer.cpp:574-591 | unescaping an escaped token gives the token back, for all bytes |
| Escaping.EscapeTable | src/BPETokenizer.cpp:574-591 | line feed, tab, carriage return, backslash and space are written as `\n`, `\t`, `\r`, `\\` and `\s`, every other byte as itself |
| Escaping.EscapeAppend | src/BPETokenizer.cpp:574-591 | tokens are escaped byte by byte |
| Escaping.UnescapeOther | src/BPETokenizer.cpp:651-679 | a text in which no backslash stands before one of the five letters is read as it is |
| Escaping.DecimalDigits | src/BPETokenizer.cpp:565-571 | digit k from the right of a printed number is its k-th decimal digit, and there is no leading zero |
| Escaping.StoiReads | src/BPETokenizer.cpp:744-801 | a number is read behind white space, one sign and leading zeros and up to whatever follows, and refused outside the range of an `int` |
| Escaping.StoiNothing | src/BPETokenizer.cpp:744-801 | no number is read where no digit follows the white space and the sign |
| Escaping.EscapeHasNoSeparator | src/BPETokenizer.cpp:574-591 | an escaped token holds no line feed, carriage return, tab or space |
| Escaping.EscapeKeepsPrefix | src/BPETokenizer.cpp:697-733 | an escaped token starts with a header keyword exactly when the token does |
| Escaping.StoiPrinted | src/BPETokenizer.cpp:565-571 | a number that fits an `int` reads back as printed |
| VocabFile.LinesOfUnlines | src/BPETokenizer.cpp:682-683 | lines without line feeds are read back as written |
| VocabFile.LinesMean | src/BPETokenizer.cpp:682-683 | the lines read from any text hold no line feed and are the text again, its last line closed, when each is followed by one |
| VocabFile.HeaderLines | src/BPETokenizer.cpp:560-572 | the ten lines in front of the tokens, letter by letter |
| VocabFile.FieldHeaderish | src/BPETokenizer.cpp:697-733 | a token or rule line reads as a comment or header exactly when its first field starts with `#`, NORMALIZATION, TOKENIZER_MODE, VOCAB_SIZE or BPE_MERGES |
| VocabFile.HeaderRead | src/BPETokenizer.cpp:560-572 | the written header reads back as the mode, the normalization and the four ids |
| LoadLaws.LoadAccepts | src/BPETokenizer.cpp:682-849 | a file is loaded exactly when every line can be read in the section it stands in (a condition on each line and on the section lines before it) and some entry names each special token |
| LoadLaws.LoadReads | src/BPETokenizer.cpp:636-863 | each field of a loaded tokenizer in terms of the lines: rules in order, entries later over earlier, ids from the last line that names them or as they were before, mode and normalization, special tokens |
| LoadLaws.LoadFails | src/BPETokenizer.cpp:636-849 | a file that is not loaded leaves the fields of the lines before the first that cannot be read, and which error it is |
| LoadLaws.EnteredMeans | src/BPETokenizer.cpp:775-790 | of the entries with one token, or with one id, the last counts |
| LoadLaws.HeaderAbsent | src/BPETokenizer.cpp:638-646 | without a line that starts with NORMALIZATION any file leaves LOWERCASE, and without one that starts with TOKENIZER_MODE it leaves ASCII mode, whatever the tokenizer was before |
| LoadLaws.HeaderPresent | src/BPETokenizer.cpp:699-719 | otherwise the last such line decides: CASED or LOWERCASE as it names it, UNICODE if it names that and ASCII if it names anything else |
| SaveAndLoad.LoadRestores | src/BPETokenizer.cpp:682-863 | a consistent tokenizer without such lines comes back whole, read into any tokenizer |
| SaveAndLoad.RestoredMeansClean | src/BPETokenizer.cpp:697-733 | if all fields come back there was no such line |
| SaveAndLoad.SaveThenLoad | src/BPETokenizer.cpp:547-863 | save then load restores mode, normalization, both tables, special tokens and ids and the rule order exactly when no token and no first half of a rule starts with `#` or one of the four keywords |
| SaveAndLoad.BuiltSaveThenLoad | src/BPETokenizer.cpp:547-863 | so it is for every built tokenizer whose size fits an `int` |
| SaveAndLoad.HashUnitIsLost | src/BPETokenizer.cpp:697-699 | a vocabulary with the unit `#` never comes back whole |
| BatchProcessing.CreateBatch | src/BatchProcessor.hpp:90-126 | each row is its sequence and then only padding, up to the longest length, which some sequence has |
| BatchProcessing.SortPairs | src/BatchProcessor.hpp:157-158 | the pairs in ascending order and no others |
| BatchProcessing.AscendingUnique | src/BatchProcessor.hpp:157-158 | the ascending arrangement of given pairs is unique, so sorting leaves no choice |
| BatchProcessing.SortedIsStable | src/BatchProcessor.hpp:151-158 | the sorted pairs list every input position once, by length and then by position |
| BatchProcessing.CreateDynamicBatches | src/BatchProcessor.hpp:143-194 | the batches are those of the greedy groups of the sequences in stable length order, with the cap cast to an unsigned size |
| BatchProcessing.SizeCast | src/BatchProcessor.hpp:168-171 | the cap cast to an unsigned size differs from it by a multiple of 2^64 |
| BatchProcessing.GroupSorted | src/BatchProcessor.hpp:160-193 | the loop over the sorted pairs closes and opens groups where the greedy rule does |
| BatchOptimality.GroupsConserve | src/BatchProcessor.hpp:160-193 | the groups one after the other are exactly the sorted sequences |
| BatchOptimality.GroupsFit | src/BatchProcessor.hpp:168-171 | every group is a single sequence or respects both the cap and the length spread |
| BatchOptimality.GroupsMaximal | src/BatchProcessor.hpp:168-171 | every group goes on as long as it can: it is full, or the sequence behind it is too long for it |
| BatchOptimality.DynamicBatchesConserve | src/BatchProcessor.hpp:143-194 | one call conserves its input: every sequence in one row, every token counted once |
| BatchOptimality.DynamicBatchesPadding | src/BatchProcessor.hpp:143-194 | padding is at most the length tolerance times (sequences - batches) |
| BatchOptimality.ComputeBatchStats | src/BatchProcessor.hpp:287-304 | for rows as long as their batch says, `total_tokens` is the number of cells of all rows and what it exceeds `actual_tokens` by is the number of cells behind their sequences; the other two sums count batches and rows |
| BatchOptimality.TokensAreCells | src/BatchProcessor.hpp:290-301 | the two sums, batch by batch, are these numbers of cells |
| BatchOptimality.StatsConserve | src/BatchProcessor.hpp:287-304 | `actual_tokens` is the total length of the sequences and the rows are as many as they |
| BatchOptimality.ExchangeKeepsGrouping | src/BatchProcessor.hpp:160-193 | exchanging a later member of the first sequence's group for an earlier outsider keeps sizes and spread |
| BatchOptimality.PullForward | src/BatchProcessor.hpp:160-193 | any grouping can be rearranged, with no more groups, so that the first sequence's group lies within the greedy first group |
| BatchOptimality.DropFirstGroup | src/BatchProcessor.hpp:160-193 | without the greedy first group the rest needs one group less |
| BatchOptimality.GreedyOptimalSorted | src/BatchProcessor.hpp:160-193 | no grouping of the sorted sequences has fewer groups than the greedy one |
| BatchOptimality.GreedyIsGrouping | src/BatchProcessor.hpp:160-193 | the greedy grouping is itself such a grouping with as many groups as there are batches, so the minimum is attained |
| BatchOptimality.GreedyOptimal | src/BatchProcessor.hpp:143-194 | nor has any grouping of the input, contiguous or not, with at most `max_batch_size` >= 1 sequences and spread at most `length_tolerance` >= 0 |
| ServerLifecycle.StartKept | src/ChatbotAPI.cpp:369-390 | each atomic step of `start()` keeps the invariant on the flags and on its own place |
| ServerLifecycle.StopKept | src/ChatbotAPI.cpp:399-409 | each atomic step of `stop()`, and of the listener's stop inside it, does too |
| ServerLifecycle.Undisturbed | src/ChatbotAPI.cpp:369-409 | no step of one thread breaks what another relies on |
| ServerLifecycle.StopIsFinal | src/ChatbotAPI.cpp:392-409 | once a `stop()` has returned no thread is inside listen() or ever will be, in any continuation of any run |
| ServerLifecycle.OneClaim | src/ChatbotAPI.cpp:372-388 | at most one thread is between claiming and clearing `running_`, and the flag is set exactly while one is |
| ServerLifecycle.ListenerStoppedOnce | external/cpp-httplib/httplib.h:5917-5924 | the listener's stop is entered at most once, never trips its assertion on the socket, and leaves no accept loop on an open socket behind |
| ServerLifecycle.StartReturns | src/ChatbotAPI.cpp:369-390 | in every run, what a finished `start()` returned was settled last by: true, a stop requested before listening or the socket found closed; false, the server found running, a failed bind or a failed accept on an open socket; and true is never returned unless a stop was requested |
| ServerLifecycle.SocketOpenExactly | external/cpp-httplib/httplib.h:5905-5924 | in every run the socket is open exactly when the last bind succeeded and no stop has closed it since |
| ServerLifecycle.ClosesWhatListened | external/cpp-httplib/httplib.h:5917-5924 | a stop comes to closing the socket only after it has found the listener running |
| ServerLifecycle.StopCanFinish | src/ChatbotAPI.cpp:399-409 | from every reachable state in which a thread is inside `stop()` there are steps of the threads it waits for after which it has returned, though no bind or accept fails |
| ServerLifecycle.RoundDrifts | src/ChatbotAPI.cpp:369-409 | over any events during which a stop does not return: claims of `running_` aside nothing gets further from its end, and if the thread the stop waits for takes a step, something gets nearer |
| ServerLifecycle.FairStopReturns | src/ChatbotAPI.cpp:399-409 | under every schedule in rounds, in each of which every thread inside `start()` or `stop()` takes a step, a stop returns within 70 rounds and 49 more for each further claim of `running_` |
| SessionTable.Sessions.constructor | src/ChatbotAPI.hpp:406 | an empty table with room for 10000 sessions |
| SessionTable.Sessions.SetCap | src/ChatbotAPI.cpp:753-756 | the cap becomes what is asked for, but at least one |
| SessionTable.Sessions.Oldest | src/ChatbotAPI.cpp:711-714 | a session no other was used before, whatever the order of the table |
| SessionTable.Sessions.MakeRoom | src/ChatbotAPI.cpp:710-718 | fewer than the cap remain, unchanged, none of them used before one that went, and none went without need |
| SessionTable.Sessions.GetOrCreate | src/ChatbotAPI.cpp:697-736 | an unknown id is refused and changes nothing, a known one is marked as used, an empty one gets a session under an unused id after room was made, within the cap |
| SessionTurns.LockOrderOrdered | src/ChatbotAPI.cpp:1200-1205 | the lock order is strictly ascending and holds exactly the addresses named |
| SessionTurns.JobKept | src/ChatbotAPI.cpp:1193-1231 | each action of a request keeps what it knows of its locks and messages |
| SessionTurns.HeldKept | src/ChatbotAPI.cpp:461-491 | while a request holds a session, what it appends is the next part of its own block, and on release the block is whole |
| SessionTurns.OthersLeft | src/ChatbotAPI.cpp:461-491 | a request does nothing to a session that another holds |
| SessionTurns.AdvanceKeepsInv | src/ChatbotAPI.cpp:1193-1231 | every action of a single or batch turn keeps: holders and locks agree, and every conversation is made of whole turns and its holder's beginning |
| SessionTurns.WholeTurns | src/ChatbotAPI.cpp:1193-1231 | a session's conversation is a concatenation of whole per-request blocks followed by the beginning of its holder's block |
| SessionTurns.BlockMeans | src/ChatbotAPI.cpp:1193-1231 | the block of a request in a session holds its user message for each input that names the session, unless it was refused, and if generation succeeded as many replies, nothing twice, user messages first, each kind in input order |
| SessionTurns.ServedOnce | src/ChatbotAPI.cpp:1193-1231 | a finished request has had exactly one turn in each session it names and none in any other |
| SessionTurns.NeverRelocks | src/ChatbotAPI.cpp:1200-1210 | a request never waits for a mutex it holds, though a batch may name a session twice |
| SessionTurns.NoWaitCycle | src/ChatbotAPI.cpp:1200-1210 | in no reachable state do requests wait for each other in a cycle |
| SessionTurns.StepLowersWork | src/ChatbotAPI.cpp:1193-1231 | an action leaves strictly less work in all and one that cannot be taken changes no request, so every schedule ends |
| SessionTurns.SomebodyCanAct | src/ChatbotAPI.cpp:1200-1210 | while a request is unfinished some request can act |
| SessionTurns.AllCanFinish | src/ChatbotAPI.cpp:1193-1231 | from every reachable state all requests begun so far can finish |
| RequestQueue.Queue.Push | src/BatchedInferenceEngine.hpp:260-269 | refused exactly when the queue has reached the configured size as an unsigned number, otherwise appended |
| RequestQueue.Queue.CollectBatchNoWait | src/BatchedInferenceEngine.hpp:425-435 | the first requests, up to one batch, leave the queue in order |
| RequestQueue.WorkerConserves | src/BatchedInferenceEngine.hpp:358-560 | each step of the worker keeps: accepted requests = answered ones, then those in its hands, then the queue |
| RequestQueue.WorkerCapped | src/BatchedInferenceEngine.hpp:376-454 | each step of the worker keeps the batch and queue caps |
| RequestQueue.WorkerLight | src/BatchedInferenceEngine.hpp:440-454 | each step of the worker keeps: before its last request a collected batch is below the estimate of 100 tokens a request |
| RequestQueue.BatchClosedForReason | src/BatchedInferenceEngine.hpp:391-422 | over every run, a batch goes to processing before the final drain only if it holds `max_batch_size` requests, or 100 tokens for each of them reach the limit, or the engine is being stopped, or a wait timed out with nothing queued |
| RequestQueue.WaitsWhileRunning | src/BatchedInferenceEngine.hpp:391-394 | the worker begins to wait only with a batch below `max_batch_size` and while the engine runs |
| RequestQueue.QueuedTogether | src/BatchedInferenceEngine.hpp:391-454 | k requests queued when the worker is at the head of its loop, with k at most `max_batch_size` and 100 tokens for all but one below the limit, are answered in one batch if no shutdown comes before all are taken, however time passes |
| RequestQueue.SizeTMeans | src/BatchedInferenceEngine.hpp:260-263 | a limit that is negative counts as 2^64 more |
| RequestQueue.RefusedForReason | src/BatchedInferenceEngine.hpp:245-263 | over every run a submission is refused only by a stopped engine, or with the queue at its limit at some time |
| RequestQueue.CallerKept | src/BatchedInferenceEngine.hpp:242-352 | each step of `submit()` and `shutdown()` keeps the whole invariant of the engine |
| RequestQueue.AnsweredInOrder | src/BatchedInferenceEngine.hpp:242-560 | in every reachable state the answered requests are a prefix of the accepted ones in order, the rest are in the worker's batch and then the queue, nothing is taken from an empty queue, and the caps on the queue, the batch and (before the final drain) the batch's token estimate hold |
| RequestQueue.AnsweredOnce | src/BatchedInferenceEngine.hpp:465-560 | no request is answered twice and none that was not accepted is answered |
| RequestQueue.BatchSharesItsFate | src/BatchedInferenceEngine.hpp:501-558 | over the loops that generate one request and set one promise at a time, leaving at the first throw: each answer's batch is a stretch of the accepted requests, every answer within that stretch carries the same batch, and is good exactly when no request of it throws |
| RequestQueue.PromisesSetOnce | src/BatchedInferenceEngine.hpp:530-558 | in every reachable state the promise about to be set is unset, so distributing results never throws and never sends a batch that generated into the error handler |
| RequestQueue.AllAnsweredExactly | src/BatchedInferenceEngine.hpp:358-372 | once the worker has exited everything accepted was answered exactly when the final drain found at most one batch and nothing was pushed after it |
| RequestQueue.ShutdownJoins | src/BatchedInferenceEngine.hpp:342-352 | the `shutdown()` that stopped the engine returns only after the worker has exited |
| RequestQueue.ShutdownCanReturn | src/BatchedInferenceEngine.hpp:342-372 | from every reachable state in which a `shutdown()` joins, the worker alone can reach its exit and then it returns |
| RequestQueue.SecondShutdownReturns | src/BatchedInferenceEngine.hpp:342-345 | a `shutdown()` that finds the engine stopped returns at once and changes nothing |
| RequestQueue.ShutdownAnswers | src/BatchedInferenceEngine.hpp:338-372 | when `shutdown()` clears `running_` with nobody between the test and the push, then in every continuation that ends the worker everything accepted was answered exactly when at that moment at most one batch was queued, not counting a request the worker was about to take |
| RequestQueue.ShutdownLosesNothing | src/BatchedInferenceEngine.hpp:338-372 | no continuation that ends the worker leaves an accepted request unanswered exactly when, at the moment `running_` is cleared, at most one batch is queued, not counting a request the worker is about to take, and nobody is about to push (or the queue has no room at all) |
| RequestQueue.TakenAcrossShutdown | src/BatchedInferenceEngine.hpp:391-399 | with batches of one, a run in which `shutdown()` clears `running_` with two requests queued, between the worker's reading of it and its taking of the first, and no continuation loses anything |
| RequestQueue.NothingAfterExit | src/BatchedInferenceEngine.hpp:358-372 | after the worker's exit nothing is answered any more |
| RequestQueue.ClosedToTheRest | src/BatchedInferenceEngine.hpp:245-250 | after a shutdown only submissions that had already passed the test of `running_` can be accepted |
| RequestQueue.LatePushIsLost | src/BatchedInferenceEngine.hpp:245-273 | a run in which a submission that passed the test before the shutdown is accepted after the final drain and never answered |
| RequestQueue.WorkerSettles | src/BatchedInferenceEngine.hpp:342-435 | from every reachable state the worker alone answers all accepted requests while the engine runs, and exits once it is stopped |
| JsonEscape.TestIsGrammar | src/ChatbotAPI.cpp:842-864 | the bit test accepts exactly the multi-byte sequences of RFC 3629, section 4 |
| JsonEscape.TestSequence | src/ChatbotAPI.cpp:842-864 | the loop over the continuation bytes finds the length of the well-formed sequence at the position, or that there is none |
| JsonEscape.ReadAscii | src/ChatbotAPI.cpp:820-838 | whatever follows it, a parser reads the escape of an ASCII byte as that byte and stops where the escape ends |
| JsonEscape.EscapeTable | src/ChatbotAPI.cpp:820-838 | the short escapes letter by letter; every other printable ASCII byte stands for itself |
| JsonEscape.EscapeIsPrintable | src/ChatbotAPI.cpp:810-872 | the output holds no control character |
| JsonEscape.EscapeJsonString | src/ChatbotAPI.cpp:810-872 | the loop writes the escape that `EscapeRoundTrip` speaks of |
| JsonEscape.ReadFirst | src/ChatbotAPI.cpp:810-872 | whatever follows, a parser of RFC 8259, section 7, reads what one character became as that character and stops where it ends |
| JsonEscape.EscapeRoundTrip | src/ChatbotAPI.cpp:810-872 | a parser takes the quoted output back to the text with U+FFFD for each byte outside a well-formed sequence; well-formed text comes back unchanged |
| JsonEscape.EncodeDecode | src/ChatbotAPI.cpp:842-870 | decoding loses nothing of well-formed text |
| JsonEscape.DecodeEncode | src/ChatbotAPI.cpp:842-870 | the UTF-8 form of any code points is well formed and decodes to them |

## Left out

- A second `build_vocab` on one tokenizer and the state after a failed build: marked as broken in the source (TD-223). `BuiltTable` starts from a fresh tokenizer; what the methods do otherwise is in their contracts.
- Tokenizer.BPETokenizer.BuildVocab: counts and ids are unbounded integers; a count or an id that overflows an `int` is not modelled.
- Tokenizer.CacheKeys.NewKey: the counter is unbounded; its wrap-around after 2^64 keys is not modelled.
- Tokenizer.MeasureFertility: the two sums are modelled, the quotient of floats is not.
- Tokenizer.BPETokenizer.SaveVocab: the bytes are modelled, the temporary file, the rename and their errors are not.
- Tokenizer.BPETokenizer.LoadVocab: a file that cannot be opened and the texts of error messages are not modelled, nor an `atoi` of a version number that overflows.
- BatchOptimality.ComputeBatchStats: the sums are unbounded integers, and the two ratios of floats are not modelled.
- BatchProcessing.CreateBatch: lengths are unbounded; the cast of a length to `int` is not modelled.
- TrainingText.TrainingTextUnknown: leaves out training texts with vertical tab or form feed when no text of the corpus holds a space: such bytes are kept as spaces within tokens of punctuation, which the learned rules may merge, so what decides is those rules (`TrainingText.UnknownExactly`).
- TrainingText.UnknownForAnyText: leaves out, for the same reason, texts with space, vertical tab or form feed when the corpus holds vertical tab or form feed and no space.
- Letters above ASCII: `tolower` and the pattern classes are those of the C locale. The limits of `std::regex` on very long matches are not modelled.
- `recommend_vocab_size`, `get_top_tokens`, `print_vocab_stats`, padding masks, `unbatch_outputs` and console output: no hard property.
- The protocols are state machines on values, not classes: each read or write of a shared flag is a step of its own, and so is each critical section that touches none; the model has every interleaving of these steps, but no memory ordering weaker than sequential consistency.
- SessionTurns.WholeTurns: a conversation is an append-only log of message references; its trimming to a token budget, export, import and clearing, and exceptions thrown while messages are written are not modelled. Addresses are compared as numbers; the model takes `std::sort` to order addresses that way.
- SessionTable.Sessions.GetOrCreate: random ids come from a parameter that eventually gives an unused one; expiry by time is not modelled.
- ServerLifecycle.FairStopReturns: counts rounds, not time; sleeping between polls, the port number 0 and an invalid server object are not modelled.
- RequestQueue.WorkerSettles: waiting deadlines are a free choice of the run; the mutex that the worker holds while it collects is not modelled, so the model also has runs that push between two steps of collecting. Statistics, prompts, and the texts generated are not modelled; a batch's size times 100 is not taken modulo 2^64.
- HTTP routing, request parsing, model forward passes, text generation, retrieval, speculative decoding and GPU paths: generation is a choice of the run that may fail.
