# Verified cores of the llama.cpp converters and chat layer

A Dafny model of the parts of this repository where a small mistake changes meaning silently:

- **BPE merge recovery.** `convert_hf_to_gguf.py` rebuilds a pairwise merge list from a rank table
  by running its own byte-pair encoder on every token. The list is written as text, read back by
  `src/llama-vocab.cpp` and applied there with a priority queue over a linked list of symbols. The
  model follows the whole chain and proves that a word is split as before at every step, on bytes
  and on the texts that stand for them.
- **Healing truncated JSON.** `common/json-partial.cpp` closes a JSON text that stops anywhere,
  with a marker in its last place; `common/chat-parser.cpp` cuts the marker out again. The model
  has a JSON value type, its compact dump and a character-level parser (sections 2 to 7 of
  RFC 8259) in place of the JSON library, the stack of open containers, every branch of the
  healing with its trial parses, and the recursive cleaner with its shared path.
- **Low-rank tensors.** `convert_lora_to_gguf.py` runs the converters' tensor programs on a pair
  (A, B) instead of the product B·A. The model has dense row-major tensors with the torch
  operations involved, and proves that each operation on pairs, and the Llama and Falcon row
  reorderings built from them, agree with the operation on the product.
- **Streaming state machines.** Gathering expert weights in any order of arrival, differences of
  growing chat messages, and the cache of tool-call ids.
- **Imperative codecs and loops.** Base64 with decoding in place, line wrapping of help texts, and
  the scan over a GGML file with its 64-bit sizes.

Code that changes state step by step is a class or a method with loops, proved against a function
that says what it computes; what the source promises is then proved about that function.

Element values of tensors are integers. A name of an expert tensor is a datatype instead of the
formatted string. The healing marker, the ids a generator returns and the probes of the vocabulary
are parameters. Exceptions and failing assertions are `Err` or `None`.

## Properties that hold only under a condition

- *Recovered merges* mean the same as the ranks when the tokens other than single bytes are listed by
  increasing rank. The program does not check the order. Whatever it is, both tables take the same
  step in a state exactly when the best pair by rank makes the token that is listed first
  (`BpeRecovery.StepsAlikeIff`), and the runs of all words agree state by state exactly when that
  holds in every state (`SameStatesIff`). Where two overlapping pairs of bytes are tokens and the
  three bytes are not, the encodings of the three bytes differ exactly when the two tokens are listed
  against their ranks (`BpeOrder.OrderMatters`). Final encodings can agree although the runs do not
  (`BpeShortTokens.EncodingsAgreeStatesDiffer`): when all tokens have at most two bytes, the encodings
  of all words agree exactly when the tokens that overlap in a byte are listed by rank
  (`SameEncodingsIff`). For longer tokens the exact condition is that on the states of the runs.
- *Healing* succeeds for every truncated container, except that inside a partial `\uXXXX` escape the
  branches cut back to the last separator, which may lie inside the very string. It succeeds exactly
  when that cut lands on a place for a value with the same brackets open
  (`JsonHealed.HealingSucceedsIff`). It fails on `[",\u`, and on every array whose first string has a
  comma or opening bracket before the escape, and on no other such array (`HexHealsIff`). A dump
  without `\u` heals wherever it is cut (`HealingTheorems.EscapeFreeHeals`).
- *A result is partial exactly when healing happened*, except for a complete bare string consumed
  as content at the root with argument paths given: the empty marker is found at position 0, and the
  string comes back empty and partial (`HealingTheorems.BareContentIsLost`). The exception is part of
  the if-and-only-if of `HealingTheorems.CleanedResult`.
- *The last value before the end* is dropped by healing when it is a number or the beginning of a
  literal, since more might follow, and also when it is a complete `true` or `false`, whose last letter
  is taken for that of an exponent; a complete `null`, a string, an array or an object is kept, and so
  is everything with white space behind it (`HealedLast.ScalarDropped`, `BoolDropped`, `ValueKept`).
- *The cut text of healed arguments* is always a prefix of what was received. All of the text up to
  the healing point comes back from every truncation if and only if no proper beginning of the marker
  is also its end (`HealingTheorems.ExactIffUnbordered`); and the marker occurs exactly once in the
  keys and strings of every healed value under the same condition (`MarkerOnce.OnceIffUnbordered`).
  Markers are decimal numbers, so a number such as 1231 cuts too early for some messages.
- *Results of longer pieces extend those of shorter ones* unless the longer piece stops inside a
  unicode escape (`GrowingArguments.ArgumentsGrow`): `["a` comes back whole, and `["a\u` as `[`
  (`EscapesShrink`).
- *The marker occurs nowhere in what was read* when it is a decimal number that is not in the input,
  and the input has no unicode escapes and repeats no key (`DrawnMarker.DrawnIsAbsent`).
- *Message differences* add up to the new message exactly when it extends the old one
  (`ChatDiff.AddsUpIff`). When it does not, the program may throw, or return differences that add up
  to something else, because earlier tool calls are not compared and shrinking text yields nothing;
  `ChatDiff.FoldedMessage` says what they add up to in every case.
- *Re-encoding decoded base64* restores the text exactly when it is canonical in the sense of
  section 3.5 of RFC 4648 (`Base64Properties.Reencodes`).
- *A GGML tensor advances the scan by its header or more* exactly when the bytes that the header
  declares, modulo 2^64, are below 2^63 and end before 2^63, or lead back over no more than the rest
  of the header, or lead back so far that the offset wraps once more (`GgmlProperties.AdvancesIff`);
  that holds whenever the true size fits (`TrueSizeIsSane`).
- *The GGML scan ends* exactly when it ends within two rounds for every byte and one more, that is,
  when no two rounds read at the same offset (`GgmlProperties.EndsIff`). `StuckForever` gives a header
  on which it never ends, and `SaneScanEnds` says that it ends when no size wraps.
- *permute of a pair* takes what torch takes, counted from the back. Since the program counts back by
  subtracting, it also takes dimensions from n to 2n - 1, which torch refuses
  (`LoraOps.TorchTakesFewer`).

The comment in `common/json-partial.h` gives `"foo"` with both quotes as the dump marker for `{`;
the code stores `"foo` without the closing quote, and the model follows the code.

## Model

| member | source | states |
|---|---|---|
| BpeMerge.FindBest | convert_hf_to_gguf.py:2725-2731 | the scan finds the leftmost pair of lowest rank, or that no pair has a rank |
| BpeMerge.Bpe | convert_hf_to_gguf.py:2722-2736 | the merge loop ends in the state from which, under the cap, nothing may be merged |
| BpeMerge.EncodingIsUnique | convert_hf_to_gguf.py:2724-2736 | a token has one encoding, although states are defined by a choice of pair |
| BpeMerge.StateKeepsBytes | convert_hf_to_gguf.py:2723-2735 | every state concatenates to the token's bytes |
| BpeMerge.Locality | convert_hf_to_gguf.py:2723-2736 | any window of any state of a run is itself a state of the run on the window's bytes alone, leftmost ties included |
| BpeMerge.PartsReencodeToThemselves | convert_hf_to_gguf.py:2723-2736 | each returned part encodes to itself under the same ranks and cap |
| BpeMerge.CappedRunIsPrefix | convert_hf_to_gguf.py:2732-2733 | a cap only stops a run early: its states are those of the uncapped run |
| BpeRecovery.RecoverMerges | convert_hf_to_gguf.py:897-906 | the loop returns the list of two-part encodings in dictionary order, and its assertion fails exactly when some token does not encode to two parts |
| BpeRecovery.PairIsRecorded | convert_hf_to_gguf.py:900-906 | for every dictionary that is recovered, in whatever order, a pair that is adjacent in any state of any word and concatenates to a token is exactly the pair recorded for that token |
| BpeRecovery.CandidatesAgree | convert_hf_to_gguf.py:900-906 | and in every state of every word a pair has a rank exactly when it is in the merge list, at the position of its token |
| BpeRecovery.StepsAlikeIff | convert_hf_to_gguf.py:897-906 | in every state that is reached both tables take the same step exactly when the best pair by rank makes the token that is listed first |
| BpeRecovery.SameStatesIff | convert_hf_to_gguf.py:897-906 | the runs of all words agree state by state exactly when that is so in every state |
| BpeRecovery.SameStates | convert_hf_to_gguf.py:897-906 | with the longer tokens listed by rank, on every byte string the rank table and the recovered list take the same step at every state |
| BpeRecovery.SameEncoding | convert_hf_to_gguf.py:897-906 | and end with the same parts |
| BpeRecovery.ConversionKeepsEncodings | convert_hf_to_gguf.py:897-906 | whatever encodes a word with the recovered list returns what the original encoder returns |
| BpeOrder.OrderMatters | convert_hf_to_gguf.py:900-906 | for every recovered dictionary in which two overlapping pairs of bytes are tokens and the three bytes are not, the table merges the pair of lower rank and the list the pair listed first |
| BpeOrder.UnorderedIsRecovered | convert_hf_to_gguf.py:897-906 | two such tokens against their ranks are recovered without an error |
| BpeShortTokens.EncodingSettled | convert_hf_to_gguf.py:2723-2736 | where only single bytes are merged, a run ends with exactly those candidates merged that no merged candidate sharing a byte precedes |
| BpeShortTokens.AlikeEncodes | convert_hf_to_gguf.py:2723-2736 | so two such tables that order candidates sharing a byte alike have the same encodings, whatever else they order otherwise |
| BpeShortTokens.SameEncodingsIff | convert_hf_to_gguf.py:897-906 | for every recovered dictionary of tokens of at most two bytes, all words have the same encodings by rank and by list exactly when the tokens that overlap in a byte are listed by rank |
| BpeShortTokens.EncodingsAgreeStatesDiffer | convert_hf_to_gguf.py:897-906 | two tokens that do not overlap, against their ranks: every word is encoded alike, and some runs differ |
| MergeFile.ByteToCharInjective | convert_hf_to_gguf.py:2716-2719 | different bytes are written as different characters |
| MergeFile.ByteTable | src/unicode.cpp:154-176 | the table itself: 0x21 to 0x7E, 0xA1 to 0xAC and 0xAE to 0xFF stand for themselves, and every other byte is written as 256 plus the number of smaller bytes that do not |
| MergeFile.BytesToTextInjective | convert_hf_to_gguf.py:2716-2719 | different byte strings are written as different texts |
| MergeFile.MergeRoundTrip | src/llama-vocab.cpp:1728-1736 | a merge line splits back into the two texts it was joined from |
| MergeFile.ReadsAtBlank | src/llama-vocab.cpp:1728-1736 | every line is split at its first blank behind its first character, and a line without one gives an empty pair |
| MergeFile.LoadedRanks | src/llama-vocab.cpp:1723-1739 | the position looked up for a pair of texts after loading is the pair's position in the list |
| BpeText.SameTextStates | src/llama-vocab.cpp:3404-3416 | merging the characters of a word by the loaded lines goes through the texts of the states that merging its bytes by the list goes through |
| BpeText.ConvertedTextEncoding | src/llama-vocab.cpp:1723-1739 | with the longer tokens listed by rank, what the loaded lines make of the text of a word is the texts of the parts that the original ranks give, and nothing else |
| BpeSession.CurrentPair | src/llama-vocab.cpp:532-539 | a queue entry that passes the length and text checks is an adjacent pair now, with the entry's rank |
| BpeSession.LeastIsNext | src/llama-vocab.cpp:526-527 | the least entry by rank and position is the pair that the reference encoder merges next |
| BpeSession.MergeKeepsLinks | src/llama-vocab.cpp:541-549 | merging two symbols in the array keeps it a doubly linked list of consecutive pieces of the word |
| BpeSession.Session.AddNewBigram | src/llama-vocab.cpp:597-621 | afterwards a pair with a rank is queued, and nothing queued is lost |
| BpeSession.Session.PopLeast | src/llama-vocab.cpp:526-527 | takes out an entry that no other entry precedes |
| BpeSession.Session.Merge | src/llama-vocab.cpp:541-552 | one merge joins two pieces, keeps the links and leaves every adjacent pair queued |
| BpeSession.Tokenize | src/llama-vocab.cpp:491-594 | the queue-driven loop over a linked list gives exactly the reference encoding with the merge list |
| JsonStack.ErrorLocator.OnEvent | common/json-partial.cpp:55-111 | each event changes the stack as specified, and the end events find their container on top |
| JsonStack.ValueRuns | common/json-partial.cpp:55-111 | inside any container, a value's events never disturb the entries below and end with the key popped |
| JsonStack.ParserStack | common/json-partial.cpp:55-111 | at every point of every value's event stream keys sit on objects and containers on keys or arrays, the end assertions hold, and the stack is empty exactly before the value and after it |
| JsonStack.StackFollows | common/json-partial.cpp:55-111 | one scanned character's events take the stack for the containers open before to that for those open after |
| JsonScanner.ClosersClose | common/json-partial.cpp:159-169 | the brackets read off the stack close every open container around a finished value |
| JsonScanner.OnlyItsClosersClose | common/json-partial.cpp:159-169 | no other sequence of brackets completes the text |
| JsonTail.TailOf | common/json-partial.cpp:142-157 | what the last characters of a text say about the state the parser is in |
| JsonTail.CutBackInToken | common/json-partial.cpp:191-196 | cutting a partial literal or number back to the last separator lands on a place for a value in the same container |
| JsonTail.CutBackAfterLiteral | common/json-partial.cpp:212-217 | so does cutting back a complete literal ending in e |
| JsonReads.BlanksBetweenTokens | common/json-partial.cpp:113-122 | the parser that stands in for the library: white space between tokens leaves what a text parses to unchanged |
| JsonReads.TokensBegin | common/json-partial.cpp:113-122 | and a token begins only with the characters its place allows |
| JsonReads.StringsParse | common/json-partial.cpp:113-122 | a string parses to the characters it spells, each written as itself, with an escape of two characters, or with four hexadecimal digits of either case |
| JsonReads.EscapesAre | common/json-partial.cpp:113-122 | a backslash is followed by the letters of section 7 of RFC 8259 and no others |
| JsonReads.ShortestSpelling | common/chat-parser.cpp:298 | a dump writes every character in the shortest way there is |
| JsonNumbers.GrammarIsRead | common/json-partial.cpp:113-122 | everything in the grammar of section 6 of RFC 8259 is a number |
| JsonNumbers.NumberIsGrammar | common/json-partial.cpp:113-122 | and nothing else is |
| JsonDuplicates.DuplicateKeys | common/json-partial.cpp:122 | the text of an object that repeats keys parses to the object in which each key keeps its first place and its last value |
| JsonProbe.KeyTable | common/json-partial.cpp:173-189 | each trial parse of the branches inside an object value succeeds exactly in one parser state |
| JsonProbe.ArrayTable | common/json-partial.cpp:198-211 | the same for arrays |
| JsonProbe.ObjectTable | common/json-partial.cpp:219-233 | the same for objects |
| JsonHealing.ClosingOf | common/json-partial.cpp:159-169 | the closing string is the brackets of the stack from the top down, keys skipped |
| JsonHealing.FindLastSeparator | common/json-partial.cpp:190-196 | the search from the end finds the last separator |
| JsonHealing.HealInMember | common/json-partial.cpp:173-197 | the branches with trial parses choose what the parser state calls for |
| JsonHealing.HealInArray | common/json-partial.cpp:198-218 | the same for arrays |
| JsonHealing.HealInObject | common/json-partial.cpp:219-240 | the same for objects |
| JsonHealing.ChooseHealing | common/json-partial.cpp:159-243 | all branches together compute the healing given by the parser state |
| JsonHealed.CutLandsUnlessHex | common/json-partial.cpp:190-239 | cutting back never goes astray outside unicode escapes |
| JsonHealed.HealedParses | common/json-partial.cpp:173-247 | the healed text is well-formed and parses to what was read, with the marker as its last leaf or last key, and every open container closed |
| JsonHealed.HealingSucceedsIff | common/json-partial.cpp:140-247 | healing gives a text that parses exactly when the text is healable, and then to that value |
| JsonHealed.HexHealsIff | common/json-partial.cpp:212-217 | a first string of an array that stops in a unicode escape is healed exactly when it has no comma and no opening bracket before it |
| JsonHealed.SeparatorInString | common/json-partial.cpp:212-217 | so one input on which healing fails |
| JsonRender.RenderRun | common/json-partial.cpp:114-122 | after reading compact text, the parser's state dumps back to the text character by character |
| JsonRoundTrip.ParseDump | common/chat-parser.cpp:283-286 | parsing the compact dump of a value with distinct keys gives the value back |
| JsonRoundTrip.PrefixIsRendered | common/chat-parser.cpp:298-303 | every prefix of a dump is what the parser's state after it dumps to |
| JsonPartial.SaxParse | common/json-partial.cpp:113-119 | the event parser reports an error exactly when the text does not parse, with the error's position and the stack there |
| JsonPartial.CommonJsonParse | common/json-partial.cpp:32-256 | the whole function: parsed up to the error, healed, refused or thrown, as specified by the parser state |
| JsonEnd.EndIsLongest | common/json-partial.cpp:113-130 | a parsed outcome, healed or not, ends where the longest beginning that some JSON text starts with ends |
| JsonEnd.CompleteIsRead | common/json-partial.cpp:245-254 | a complete value is read to exactly its end, whatever follows that is not white space |
| JsonEnd.OutcomeIs | common/json-partial.cpp:113-256 | for every text: the value of what was read if it is one, nothing if no marker is given or no container is open, and else the containers closed around the marker exactly when the text is healable |
| HealedLast.TokenDropped | common/json-partial.cpp:190-217 | a text that stops in a number or literal, or where a value is due, heals to the open containers closed around the marker alone |
| HealedLast.ScalarDropped | common/json-partial.cpp:190-217 | so every number, whole or not, in front of the end is dropped, and every beginning of a literal |
| HealedLast.BoolDropped | common/json-partial.cpp:148-157 | a complete true or false in front of the end is dropped too, because its last letter might belong to a number |
| HealedLast.ValueKept | common/json-partial.cpp:209-225 | every other value is kept with the marker behind it, and with white space behind them so are numbers and literals |
| JsonHealedDump.HealedDump | common/chat-parser.cpp:298-303 | the dump of a healed value is the text that was kept, then the dump marker, then only what closes it |
| JsonHealedDump.CutIsPrefix | common/chat-parser.cpp:300-303 | cutting at the first dump marker never cuts behind the place where it was put |
| JsonHealedDump.CutIsExact | common/chat-parser.cpp:300-303 | a dump marker whose marker does not overlap itself, and is not in the kept text, is found exactly where it was put |
| ChatCleaner.Cleaner.Clean | common/chat-parser.cpp:296-373 | the recursive cleaner with its shared path and flag computes the specified walk |
| CleanerProperties.WalkUnmarked | common/chat-parser.cpp:296-373 | on a value without the marker the walk restores the path, reports no healing but for a lost bare string, and equals a walk with a path of its own for each call |
| CleanerProperties.WalkMarked | common/chat-parser.cpp:324-372 | on a value with the marker in its last leaf nothing of the marker is left, healing is reported, and leaving the path unpopped at the break is harmless |
| CompleteArguments.ParsedIsStorable | common/json-partial.cpp:113-130 | whatever parses can be dumped and parsed again: its numbers are numbers and its keys are distinct |
| CompleteArguments.WalkComplete | common/chat-parser.cpp:296-373 | on every value without the marker the walk throws exactly when something other than a string stands at a content path, and else puts at every argument path a text that parses to the value there and changes nothing else |
| CompleteArguments.CompleteResult | common/chat-parser.cpp:283-373 | so for every text whose read part parses, all paths and both modes: the result is that value and not partial, but for a bare string that is content |
| HealedResult.WalkHealed | common/chat-parser.cpp:296-373 | on every healed container the walk throws exactly when a container stands at a content path, and else returns what precedes the marker as if complete and the last place cut or dropped |
| HealedResult.HealedResult | common/chat-parser.cpp:296-381 | so for every partial text that is healed and all paths: arguments are dumped up to the first dump marker, content in which the text stopped ends at the marker, other strings and keys with the marker are dropped, all else is kept, and the result is partial |
| HealedResult.CutMessageThrows | common/chat-parser.cpp:225-241 | a complete message never gets a healed value: what was read throws if it has an open container, and is nothing if it has none and is no value |
| ChatJson.ChatMsgParser.TryConsumeJson | common/chat-parser.cpp:225-241 | consumes what was parsed, and throws for healed text in a complete message |
| ChatJson.ChatMsgParser.TryConsumeJsonWithDumpedArgs | common/chat-parser.cpp:260-381 | returns the specified value and flag for the rest of the input |
| ChatJson.InnermostDump | common/chat-parser.cpp:298-303 | in the innermost healed container the marker follows text free of it |
| HealingTheorems.HealedIsMarkedLast | common/json-partial.cpp:159-247 | a healed value is a container with the marker in its last leaf or last key, and nothing before that has it |
| MarkerOnce.HealedCounts | common/json-partial.h:10 | over all keys and strings of a healed value an unbordered marker occurs exactly once |
| MarkerOnce.OnceIffUnbordered | common/json-partial.h:10 | it occurs once in every healed value if and only if no proper beginning of it is also its end |
| HealingTheorems.CleanedResult | common/chat-parser.cpp:294-381 | the cleaned value has the marker in no key and no string, and is partial exactly when healed, but for the bare string |
| DrawnMarker.DrawnIsAbsent | common/chat-parser.cpp:18-24 | a decimal marker that is not in the input is nowhere in what is read of it, when the input has no unicode escapes and repeats no key |
| DrawnMarker.CleanedWithDrawnMarker | common/chat-parser.cpp:294-381 | so for such input the guarantees of cleaning hold with the marker as it is drawn |
| HealingTheorems.BareContentIsLost | common/chat-parser.cpp:312-323 | a complete bare string consumed as content comes back empty and partial |
| HealingTheorems.PrefixIsOpen | common/json-partial.cpp:117-140 | a proper prefix of the dump of a container always stops inside a container |
| HealingTheorems.TruncatedArgumentsArePrefix | common/chat-parser.cpp:297-310 | every proper prefix of the dump of a container, consumed as partial arguments, succeeds exactly if healable and returns a prefix of it, equal to what was kept for a marker that does not overlap itself |
| HealingTheorems.EscapeFreeHeals | common/json-partial.cpp:190-217 | and succeeds wherever the dump is cut, if the dump has no unicode escape |
| HealingTheorems.OverlapCutsEarly | common/chat-parser.cpp:300-303 | for every marker that overlaps itself, an array of one string that comes back cut too early |
| HealingTheorems.ExactIffUnbordered | common/chat-parser.cpp:300-303 | all of the kept text comes back from every truncation of every container if and only if no proper beginning of the marker is also its end |
| GrowingArguments.KeptGrows | common/json-partial.cpp:159-247 | of a longer piece of a dump no less is kept than of a shorter one, unless the longer one stops inside a unicode escape |
| GrowingArguments.GrowsIffKept | common/chat-parser.cpp:297-310 | of two pieces that are healed the result for the longer one extends that for the shorter one exactly when no less of it is kept |
| GrowingArguments.ArgumentsGrow | common/chat-parser.cpp:297-310 | so results grow from piece to piece, as the differences between messages assume, outside of unicode escapes |
| GrowingArguments.EscapesShrink | common/json-partial.cpp:212-217 | and shrink inside one, for every string without separators that goes on with a control character |
| NestedArguments.HealsTogether | common/json-partial.cpp:159-247 | healing a text that stops inside a member's value succeeds exactly when healing the value's own text does, and does the same to it |
| NestedArguments.MemberArguments | common/chat-parser.cpp:320-352 | at the path of one member of an object stands exactly the text that consuming the member's own text returns, and the members before it are untouched |
| NestedArguments.MemberIsPrefix | common/chat.cpp:1660 | for a truncated dump of an object the text at that path is a prefix of the dump of the member's value |
| HealedContent.ContentOfMember | common/chat-parser.cpp:334-352 | content of which a part has arrived comes back as the characters received, all of them for a marker that does not overlap itself, with the members before it untouched |
| Tensors.UnravelRavel | convert_lora_to_gguf.py:129-153 | positions and indices of a row-major buffer correspond one to one |
| Tensors.Extensional | convert_lora_to_gguf.py:129-178 | tensors with the same shape and entries are equal |
| Tensors.PermuteAt | convert_lora_to_gguf.py:161-172 | an entry of a permuted tensor is the entry at the inversely permuted index |
| Lora.ReshapePairAgrees | convert_lora_to_gguf.py:129-153 | reshape of a pair, with an inferred dimension or without, raises exactly when torch would or the row size would change or a vector would result, and else reshapes the product |
| ReshapeShapes.ReshapeTensorIs | convert_lora_to_gguf.py:129-153 | reshape succeeds exactly when some shape of that size fits with at most one inferred dimension that is determined, and then keeps the entries in order |
| LoraOps.PermutePairAgrees | convert_lora_to_gguf.py:161-172 | for all dimensions, permute of a pair succeeds exactly when torch takes them counted from the back, the last one stays last or a matrix is transposed, and A has no leading dimensions above one; and it permutes the product |
| LoraOps.TorchTakesFewer | convert_lora_to_gguf.py:161-163 | torch takes the dimensions as they are exactly when it takes them counted from the back and none is past the last, and then they mean the same |
| LoraOps.TransposeAgrees | convert_lora_to_gguf.py:168-178 | a matrix pair is transposed by swapping and transposing its factors |
| LoraIndex.SelectAgrees | convert_lora_to_gguf.py:94-111 | selecting positions in every dimension of the pair selects them in the product |
| LoraIndex.GetItemAgrees | convert_lora_to_gguf.py:76-111 | indexing with a tuple of slices and a list raises exactly when indexing the product would, selects from the product, and leaves A alone when only leading dimensions are indexed |
| IndexEntries.GetItemShape | convert_lora_to_gguf.py:76-111 | by entries: indexing raises exactly for too many indices or a position outside its dimension, and a slice takes the positions between its bounds, negative ones counted from the end |
| IndexEntries.GetItemAt | convert_lora_to_gguf.py:76-111 | entry i along a slice is entry start + i of the tensor, and along a list entry ids[i], counted from the end when negative |
| IndexEntries.PairItemAt | convert_lora_to_gguf.py:94-111 | the same for a pair, on the products |
| LoraCat.StackAt | convert_lora_to_gguf.py:197-204 | slot i of a stack is the i-th tensor |
| LoraCat.StackPairsAgrees | convert_lora_to_gguf.py:197-204 | stacking pairs succeeds exactly when their factors match in shape, and stacks their products, also where A is broadcast |
| LoraCat.CatPairsAgrees | convert_lora_to_gguf.py:205-220 | joining matrix pairs succeeds exactly when they share A, and joins their products |
| LlamaPermute.PermutedIs | convert_hf_to_gguf.py:1962-1967 | the reordering runs exactly when the split has as many elements as the tensor |
| LlamaPermute.PermutedRow | convert_hf_to_gguf.py:1962-1967 | half s of each head goes, in order, to the rows of parity s of that head, and no row changes inside |
| LlamaPermute.RowsAreNumbered | convert_hf_to_gguf.py:1962-1967 | every row number is that of a head, half and position, before and after |
| LlamaPermute.RowNumbersAreUnique | convert_hf_to_gguf.py:1962-1967 | and of only one: the reordering is a bijection on rows |
| LlamaPermute.PermutedPairAgrees | convert_hf_to_gguf.py:1962-1967 | run on a low-rank pair it succeeds exactly when it does on the product, and gives a pair for the reordered product |
| FalconQkv.LayoutIs | convert_hf_to_gguf.py:1712-1716 | what the hyperparameters mean, with one group where the number of key and value heads is missing or zero |
| FalconQkv.RegroupedPairAgrees | convert_hf_to_gguf.py:1711-1720 | the query, key and value regrouping run on a low-rank pair through view, indexing, reshape and cat gives a pair for the regrouped product; the pieces always share A |
| FalconRows.RegroupedIs | convert_hf_to_gguf.py:1716-1720 | it runs exactly when the groups fill the tensor and the heads divide evenly over the groups |
| FalconRows.RegroupedRuns | convert_hf_to_gguf.py:1712-1720 | the same in terms of the hyperparameters |
| FalconRows.RegroupedRow | convert_hf_to_gguf.py:1716-1720 | every row of every head is moved unchanged to its place among all queries, all keys or all values in group order |
| FalconRows.RowsHavePlaces | convert_hf_to_gguf.py:1702-1708 | both numberings of rows are one to one |
| FalconRows.PlacesHaveRows | convert_hf_to_gguf.py:1702-1708 | and onto: the regrouping is a bijection on rows |
| Experts.Gatherer.TakeExperts | convert_hf_to_gguf.py:2009-2017 | takes one kind of weight of all experts out of the buffer, or reports the first missing name |
| Experts.Gatherer.MergeExperts | convert_hf_to_gguf.py:2008-2024 | the three kinds in turn |
| Experts.Gatherer.ModifyTensors | convert_hf_to_gguf.py:1995-2026 | one arrival is buffered, and merges the layer when its buffer is long enough |
| Experts.Gatherer.PrepareTensors | convert_hf_to_gguf.py:2060-2067 | all arrivals in turn, then an error naming exactly what is left in the buffers |
| ExpertsProperties.LengthTells | convert_hf_to_gguf.py:2003-2005 | the buffer's length reaches three per expert exactly when all of the layer's tensors are in it |
| ExpertsProperties.RunGathers | convert_hf_to_gguf.py:1995-2026 | for every order of arrival nothing raises, each layer is emitted by the arrival that completes it, and its buffer is empty afterwards |
| ExpertsProperties.EmittedOnce | convert_hf_to_gguf.py:2005-2024 | each merged tensor is emitted exactly once and nothing else is |
| ExpertsProperties.UsedOnce | convert_hf_to_gguf.py:2012-2017 | each input is used exactly once, expert x in slot x |
| ExpertsProperties.OrderDoesNotMatter | convert_hf_to_gguf.py:1995-2026 | after any reordering of the arrivals the run leaves the same buffers and has emitted the same tensors |
| ExpertsProperties.RaisesWhenIncomplete | convert_hf_to_gguf.py:2060-2067 | an error is raised exactly when some layer received some of its experts but not all |
| ExpertsProperties.RaisesFor | convert_hf_to_gguf.py:2003-2017 | in every state of the buffers, whatever names are in them, an arrival raises exactly for an unknown layer or when its buffer is long enough and a name is missing; the error names the first one |
| ChatDiff.ComputeDiffs | common/chat.cpp:85-124 | the differences in the order of the program, or its first error |
| ChatDiff.ThrowsWhen | common/chat.cpp:31-44 | exactly when an error is thrown |
| ChatDiff.DiffsInOrder | common/chat.cpp:85-124 | the differences one by one: which there are, in which order, and what each carries |
| ChatDiff.FoldedMessage | common/chat.cpp:31-44 | whenever nothing throws a client holds the new text where it begins with the old one and else the old text, for content, reasoning and the last old call, with earlier calls as they were and new calls added |
| ChatDiff.AddsUpIff | common/chat.cpp:85-124 | applying the differences to the old message gives the new one exactly when it extends the old one |
| ChatDiff.RunAddsUp | common/chat.cpp:85-124 | over any run of messages where each extends the last nothing throws, and all differences add up to the last message |
| ToolCallIds.Slot.EnsureToolCallIdsSet | common/chat.h:47-58 | fills the cache where it is too short and labels every call from it |
| ToolCallIds.FilledIds | common/chat.h:47-58 | ids that are cached stay, a new id that is reported is kept, and the generator is asked in order for the empty ones and for nothing else |
| ToolCallIds.Slot.UpdateChatMsg | tools/server/server.cpp:1442-1455 | an empty message is ignored; any other is labelled, stored and compared with the one before, and stays stored if comparing throws |
| ToolCallIds.RunSendsOnce | common/chat.cpp:100-122 | over such a run from an empty message, whatever ids the parser reports, nothing throws, the differences add up, and each call's id and name are sent once, in the first difference for it |
| ToolCallIds.IdsNeverChange | common/chat.h:47-58 | the id at a position is never empty and never changes |
| Base64.Base64Value | common/base64.hpp:344-389 | a character's value and the alphabet it settles on |
| Base64.EncodeBytes | common/base64.hpp:80-144 | the encoding of section 4 of RFC 4648, with the chosen alphabet |
| Base64Tables.AlphaIsPrinted | common/base64.hpp:80-144 | both encoding tables are those that RFC 4648 prints |
| Base64Tables.GroupIsNumber | common/base64.hpp:80-144 | the four values of a group are the 24 bits of its three bytes, six by six |
| Base64.DecodeText | common/base64.hpp:200-244 | decoding into a fresh string, with its errors |
| Base64Tables.PaddingIsChecked | common/base64.hpp:200-244 | moderate decoding rejects every text with another character behind a padding character |
| Base64Tables.PaddingIsLoose | common/base64.hpp:200-244 | loose decoding never looks behind the first one, and otherwise both agree |
| Base64.DecodeDataInplace | common/base64.hpp:204-228 | reading and writing one buffer, after i characters floor(3i/4) bytes are written, and what follows them is untouched |
| Base64.DecodeInplace | common/base64.hpp:294-313 | decoding in place leaves the bytes that decoding into a fresh string gives, with the same errors |
| Base64Properties.RoundTrip | common/base64.hpp:80-244 | decoding any encoding gives the bytes back, with its alphabet or automatically, strict or loose |
| Base64Properties.Reencodes | common/base64.hpp:80-244 | encoding what was decoded gives the text back exactly when it is canonical |
| Base64Properties.EncodingIsCanonical | common/base64.hpp:80-144 | every encoding is canonical |
| Base64Properties.AutoIsEither | common/base64.hpp:344-389 | automatic decoding succeeds exactly when one of the two alphabets does, with that result |
| Base64Properties.EncodedSize | common/base64.hpp:338-341 | an encoding is as long as announced |
| Base64Properties.DecodedSize | common/base64.hpp:324-327 | decoding writes three bytes for four characters, never more than announced |
| Base64Properties.MaximumIsLeast | common/base64.hpp:324-327 | the announced maximum is three bytes for each group of four characters, the last one whole or not |
| LineWrap.AddLine | common/arg.cpp:114-130 | short lines stay, long ones are filled greedily |
| LineWrap.BreakStrIntoLines | common/arg.cpp:110-135 | every input line in turn |
| LineWrap.LinesJoined | common/arg.cpp:110-135 | the lines joined by newlines are the text, but for one newline at its end |
| LineWrap.ShortLinesStay | common/arg.cpp:114-117 | lines that fit come out as they are, blank and indented ones included |
| LineWrap.GreedyIsLegal | common/arg.cpp:117-129 | greedy lines keep the words in order, and each fits or is one overlong word |
| LineWrap.GreedyIsMinimal | common/arg.cpp:117-129 | no split of the words into such lines is shorter |
| LineWrap.SpacesAre | common/arg.cpp:118-119 | words are separated by the blank and the five characters from the tabulator to the carriage return |
| LineWrap.WordsOfJoin | common/arg.cpp:118-125 | reading a line back gives its words |
| LineWrap.WrappedIsBest | common/arg.cpp:114-130 | wrapping one line, in terms of the output text: same words, no line too long, as few lines as possible |
| GgmlScan.Vocab.Load | convert_llama_ggml_to_gguf.py:84-98 | reads the items one after the other, or the first error, and reports the bytes passed |
| GgmlScan.Tensor.Load | convert_llama_ggml_to_gguf.py:110-131 | fills the fields from the header at the offset and reports the distance to the end of the data, in wrapping 64-bit arithmetic |
| GgmlHeader.SliceBytes | convert_llama_ggml_to_gguf.py:88-95 | slices of the data count negative positions from the end and may be shorter than asked for |
| GgmlHeader.HeaderReads | convert_llama_ggml_to_gguf.py:110-131 | a header that is written, with any dimensions, name and type, is the header that is read, wherever it stands |
| GgmlHeader.HeaderRejects | convert_llama_ggml_to_gguf.py:112-121 | which headers are rejected, by their first three words |
| GgmlHeader.ItemReads | convert_llama_ggml_to_gguf.py:84-98 | a vocabulary item that is written is the item that is read |
| GgmlHeader.KnownTypes | gguf-py/gguf/constants.py:2704-2737 | the block of every type has the size that its parts make up |
| GgmlHeader.NoOtherType | gguf-py/gguf/constants.py:2566-2597 | and no other number is a type |
| GgmlScan.Model.LoadTensors | convert_llama_ggml_to_gguf.py:188-200 | on every file on which the loop ends it reads exactly the tensors of the scan, maps their names, and returns the last end |
| GgmlProperties.AlignIsLeast | convert_llama_ggml_to_gguf.py:124 | padding ends at the least multiple of 32 that is not before the header's end |
| GgmlProperties.AdvancesIff | convert_llama_ggml_to_gguf.py:124-131 | in terms of the header, exactly when a tensor advances the offset by its fixed header or more |
| GgmlProperties.TrueSizeIsSane | convert_llama_ggml_to_gguf.py:126-129 | as long as the true size fits into 63 bits the size is the true one |
| GgmlProperties.EndsIff | convert_llama_ggml_to_gguf.py:190-194 | the loop ends exactly when it ends within two rounds for every byte and one more, and exactly when it never reads twice at one offset |
| GgmlProperties.SaneScanEnds | convert_llama_ggml_to_gguf.py:190-194 | as long as no tensor that is read has a size that wraps, the loop ends after at most one tensor for every twelve bytes |
| GgmlProperties.StuckForever | convert_llama_ggml_to_gguf.py:190-194 | after any aligned prefix, one header on which the scan never ends |
| GgmlProperties.StuckNeverEnds | convert_llama_ggml_to_gguf.py:190-194 | no number of steps ends that scan |
| GgmlProperties.ScanTiles | convert_llama_ggml_to_gguf.py:110-131 | header, dimensions, name, padding and data of all tensors lie one after the other from the start of the scan to the offset it returns |
| GgmlProperties.TiledOnce | convert_llama_ggml_to_gguf.py:187-194 | so every position in between belongs to one region and to no other |
| GgmlProperties.LastWins | convert_llama_ggml_to_gguf.py:193 | a name is mapped to the last tensor that has it |

## Left out

- BpeSession.Tokenize: works on bytes; the program's symbols are the characters that stand for bytes in the vocabulary, one for each byte (`BpeText.ConvertedTextEncoding` carries its result over to the texts), and the model takes a word after the regular-expression split. Looking tokens up by text and the `ignore_merges` shortcut are not modelled.
- BpeSession.Session.PopLeast: the priority queue is a sequence from which a least entry is taken; the heap inside it is library code.
- JsonPartial.CommonJsonParse: the JSON library is replaced by a parser of this project. Numbers are opaque tokens; escapes of surrogate pairs are rejected; strings are characters, so a cut inside a UTF-8 sequence is not modelled; the error position of a misspelled literal is where it goes wrong.
- HealingTheorems.CleanedResult: the marker is assumed absent from what was read; the parser draws it until it is not in the raw input, which `DrawnMarker.DrawnIsAbsent` shows to be enough without unicode escapes and repeated keys, while an escaped spelling of it in a string is not excluded by that.
- HealingTheorems.TruncatedArgumentsArePrefix: values have distinct keys, as the library's objects do.
- NestedArguments.MemberArguments: for the path of one member of the root object whose value is an array or object; a string there is returned as it is, without being dumped, and dropped while it is incomplete. For all other paths `HealedResult.HealedResult` says what comes back.
- Lora.ReshapePairAgrees: rank and row size are positive and at most one dimension is inferred; A has leading dimensions of length one only, the case the program itself is sure of. Shapes with two inferred dimensions are refused by torch but can pass on pairs.
- LoraOps.PermutePairAgrees: dimensions from n to 2n - 1 are compared with torch counted from the back; torch itself refuses them.
- LoraIndex.GetItemAgrees: tuples of slices with step one and at most one list of positions. Several lists would be read together by torch and one by one on pairs. Integers and an ellipsis in the tuple, and indexing without a tuple, are not modelled.
- LoraCat.CatPairsAgrees: for matrices; with more dimensions the program joins A as well, which fits only when A is not broadcast.
- FalconQkv.RegroupedPairAgrees: the row size of the pair must be the width the layout gives, as the program's reshape demands.
- Experts.Gatherer.ModifyTensors: names are values instead of formatted strings, and a merged tensor is the sequence of its slots; `LoraCat.StackAt` and `LoraCat.StackPairsAgrees` say what stacking them gives. The mapping of names to the output format is not modelled.
- ToolCallIds.Slot.UpdateChatMsg: starts from the parsed message; a message is its reasoning, content and tool calls, which is all that parsing fills and the differences carry.
- ToolCallIds.RunSendsOnce: the loop counter is unbounded; the program's is 32 bits wide.
- Base64.DecodeInplace: what the buffer holds after an error is not specified.
- LineWrap.BreakStrIntoLines: reading lines and words from a stream is a function of the text.
- GgmlScan.Vocab.Load: a score is its four bytes, not a floating-point value.
- GgmlScan.Model.LoadTensors: for files on which the loop ends, by the exact condition of `GgmlProperties.EndsIff`. The file header, the hyperparameters and the feed-forward size taken from a tensor are not modelled.
- Chat templates, grammars and the tool-call formats of the different models: they rest on template and regular-expression libraries.
- Downloading, caching, argument tables, quantization and writing of GGUF files: input and output, or floating point.
