# Verified models for the Smol repository

A NAS web application (`NAS/app.py`) and the copy of llama.cpp it runs on (`llama_cpp_repo`). The project
models the parts of that code whose behaviour is hardest to see from one function body, and proves what
they keep, what they undo and where they fail.

- **Streaming chat output.** A model's answer is parsed again after every token. `StreamParser` is the
  message parser, `StreamSafety` proves that reasoning and content only grow along the stream, and
  `StreamReading` what is shown of every answer, by its layout of sections; `TagTrimming` is about text
  held back because it may begin a tag; `MessageDiffs` is about the deltas that are sent; `Utf8Truncation`
  about characters cut in the middle.
- **Truncated JSON.** `JsonText` is a character automaton for JSON texts, proved to accept exactly the
  grammar of RFC 8259 with paired escaped surrogates (`JsonGrammar`, `JsonParsing`) and to be alive
  exactly on the beginnings of such texts (`JsonPrefixes`). `JsonSax`, `JsonCompletions`, `JsonAnchors`,
  `JsonEscapes` and `JsonHealing` are `common_json_parse` on it, `JsonMisread` the inputs on which it
  fails. `JsonDump` says what the library prints for a syntax tree, and `JsonBuilder` parses and prints
  character by character, with `JsonDumping` as the proof that both agree. `JsonOpen`, `JsonKept`,
  `JsonLead` and `JsonPlace` say what the dump of a healed text looks like around the marker; `JsonMarker`
  is the search for the marker in that dump, `JsonCuts` its failures. `JsonStrings` prints strings, and
  `JsonReadBack` proves that printed strings are read back.
- **Tool calls and grammars.** `ToolCallMapper` and `ToolArguments` write argument objects piece by piece;
  `GbnfExcluding` builds the grammar of texts without forbidden strings, `GbnfIntegers` (with `Numerals`)
  the grammar of the integers between two bounds.
- **Model files.** `Tensors`, `LoraTensors`, `LoraChains`, `LoraSlices`, `LoraIntegers` and `LoraJoins`
  compare operations on the two factors of a LoRA tensor with the same operations on the dense tensor that
  the factors stand for; `LoraLayouts` says where elements go. `GgmlRecords`, `GgmlLoader`, `GgmlFiles`
  and `GgmlRanges` are the loader of legacy GGML files, a printer for such files, and the byte ranges of
  the tensors.
- **Text utilities.** `Base64Codec` (decoding in place), `Escapes` (unescaping in place), `CsvRows`,
  `NgramTable`, and `SambaConf` (editing smb.conf). `Text`, `ChatMessage` and `Base` are shared.

Classes and loops of the source are classes, arrays and loops here; each method is proved against a
function, and the lemmas are about that function. Strings are sequences of characters: where the source
works on `std::string`, a character stands for a byte; in the JSON modules it stands for a code point of
a text in valid UTF-8.

## What the code does not keep

Each of these is proved, with an input, and with the exact condition where one is named.

- Healing JSON fails exactly on the texts that `JsonHealing.Misread` describes: an escaped backslash and
  the digits of a high surrogate before an open escape are taken for a surrogate
  (`JsonMisread.MisreadExample`).
- Healing drops more than the last scalar if the text holds a number that is not finite as a `double`: the
  number goes, and everything behind it (`JsonHealing.ParsedInFront`). `{"x":1e999,"a":"b` is such a text
  (`JsonMisread.LargeIsRefused`), and so is the complete text `{"x":1e999}`. Bytes that are not UTF-8 end
  the reading in the same way; this alone is not part of the model, which takes texts in UTF-8. The guard
  of "healed well exactly when not misread" is therefore: every number finite, and valid UTF-8.
- The dump marker is searched for in the dump of the parsed arguments, although json-partial.h speaks of its
  only occurrence. Cutting at the first hit leaves what is printed of the kept text exactly if the marker
  does not complete the escape of a printable character (open digits `002` to `007`), the key it completes
  is new in its object, the marker is not in what is printed of the kept text, and no end of that and a
  beginning of the marker overlap (`JsonMarker.CutIff`). It fails for `{"a":"12` with marker `1212`
  (`JsonCuts.CutTooEarly`), for `{"a":"\u004` with any marker (`EscapeLosesCut`; with `7` the dump is
  `{"a":"@7"}` and nothing is cut, `NothingCut`), and for a raw U+4155 with marker `4155`, which is not in
  the input but in the escape that the dump prints (`EscapeIsHit`). `JsonMarker.SafeMarker` is a guard.
- `try_find_literal` looks for a partial literal in the whole input, not only behind the position, and can
  miss one; exactly when the longest overlap of the whole input starts before the position while the unread
  part has an overlap of its own (`TagTrimming.MissedLiteral`).
- A repeated unit of the excluding grammar can spell a forbidden string across two units (`aab` with `ab`
  forbidden, `GbnfExcluding.MatchesForbidden`). The grammar is exactly the language without forbidden
  strings only if all of them have one character (`ExcludesExactlyIff`). If one forbidden string begins
  another, a unit itself can begin with it (`UnitBeginsForbidden`).
- The integer grammar with only a lower bound of at most 15 digits is exact if and only if the bound is
  negative or its inner digits are all at least 2; with only a negative upper bound, if and only if its
  absolute value has at least two digits, starts with 1, and the rest has no small inner digit. Longer
  single bounds give repetitions with crossed bounds such as `[0-9]{16,15}`, or digits too many, except for
  1111111111111110 (`GbnfIntegers.BuildMinMaxInt`, `Sound`; `UnsoundExamples`: 100, 315, at most -5, and
  2000000000000000).
- Arguments of a tool call are complete JSON exactly if every string argument but the last is closed; the
  closing tag is optional in chat.cpp (`ToolArguments.PrintedIff`).
- A string that an unfinished call leaves open is closed inside the next call, if that has no arguments: its
  arguments are then `{"}` (`ToolArguments.QuoteIsCarriedOver`).
- `trim_trailing_space` with a limit of 0 or more trims nothing (`ToolCallMapper.TrimTrailingSpace`).
- GGML tensor lengths are computed in 64-bit arithmetic without a check. A length is right exactly if the
  product of the dimensions and the type size is below 2^63 (`GgmlRanges.SizeIsTrueIff`); otherwise the
  ranges can overlap, the loader can step back in the file (`StepsBack`), and it can stay on one record
  for ever (`NeverEnds`).
- `LoraTorchTensor.permute` accepts a dimension number once beyond the axes (`LoraChains.DenseAcceptsIff`,
  `UnknownDimensionAccepted`). `__getitem__` accepts integers on both of the last two axes when the last
  sliced axis of A has the size of the rank, and returns a tensor with one axis too many
  (`LoraIntegers.IntegersAcceptedIff`, `IntegersExample`). Slicing can leave leading axes that no longer
  broadcast (`LoraIntegers.GivesSelectionIff`, `SliceExample`), and so can concatenation
  (`LoraJoins.CatBatchesFitIff`, `CatExample`).
- The used-slot counter of the n-gram table is wrong as soon as the token -1 is added
  (`NgramTable.AddKeepsUsedIff`).

## Model

| member | source | states |
|---|---|---|
| Text.FindPartialStop | llama_cpp_repo/common/common.h:708-721 | the downward loop over lengths returns the leftmost position whose tail begins the stop word, or none if there is no such position |
| Text.StripLoop | llama_cpp_repo/common/common.cpp:410-420 | the two indices cut exactly the white space at both ends |
| Text.StripMonotone | llama_cpp_repo/common/common.cpp:410-420 | stripping a beginning of a text gives a beginning of the stripped text |
| StreamParser.MsgParser.TryFindLiteral | llama_cpp_repo/common/chat-parser.cpp:257-285 | the position moves behind the first full match at or behind it, or to the end of the input for a partial one, and stays if nothing is found |
| StreamParser.MsgParser.TryParseReasoning | llama_cpp_repo/common/chat-parser.cpp:287-431 | the loop with its closures has the effect of the pure reading function on position, content and reasoning; a refusal leaves the parser as it was |
| StreamSafety.RoundGrows | llama_cpp_repo/common/chat-parser.cpp:381-430 | one round of the reading loop on a beginning of a text emits a beginning of what it emits on the longer text, and the same if it stops inside |
| StreamSafety.BlocksGrow | llama_cpp_repo/common/chat-parser.cpp:381-430 | the reading loop on a beginning of a text yields content and reasoning that begin those of every longer text |
| StreamSafety.ReasoningGrows | llama_cpp_repo/common/chat-parser.cpp:287-431 | content and reasoning shown for a partial answer are never taken back when the answer grows, from any position, and a decision made inside the text stays |
| StreamReading.SectionsRead | llama_cpp_repo/common/chat-parser.cpp:381-430 | any number of sections, the last one perhaps still open, followed by other text or by the beginning of a start tag: inside the content each text that is not blank stands stripped between its tags, kept apart it is led by the captured start tag if the template forces it open |
| StreamReading.AnswerIsRead | llama_cpp_repo/common/chat-parser.cpp:287-431 | for every layout of an answer, from any position and under all settings: whether there is reasoning, where reading stops, and exactly what is shown |
| StreamReading.RenderedReasoningIsRead | llama_cpp_repo/common/chat-parser.cpp:287-431 | closed sections as a model writes them are read back: in their tags inside the content, or as reasoning, each led by the start tag if the template forces it open; reading stops at the text behind them |
| StreamReading.EveryAnswer | llama_cpp_repo/common/chat-parser.cpp:287-431 | every text has such a layout |
| TagTrimming.OverlapIffCompletable | llama_cpp_repo/common/common.h:708-721 | a partial stop is a position at which some continuation completes the word, and only that |
| TagTrimming.PreludeGrows | llama_cpp_repo/common/chat-parser.cpp:257-285 | the text in front of a literal found in a partial input begins the text in front of it in every longer input |
| TagTrimming.MissedLiteral | llama_cpp_repo/common/chat-parser.cpp:257-285 | when nothing is found, a continuation still makes the literal start in the unread text exactly if the longest overlap of the whole input starts before the position and the unread part has an overlap too |
| TagTrimming.MissedLiteralExample | llama_cpp_repo/common/chat-parser.cpp:257-285 | an input, a position and a continuation for which the literal is missed |
| TagTrimming.BestMatch | llama_cpp_repo/common/chat-parser-xml-toolcall.cpp:669-682 | the inner loop finds the earliest overlap of one tag with the end of the text |
| TagTrimming.TrimSuffix | llama_cpp_repo/common/chat-parser-xml-toolcall.cpp:669-682 | the text is cut at the earliest overlap with any of the tags |
| TagTrimming.NoTagLeaks | llama_cpp_repo/common/chat-parser-xml-toolcall.cpp:669-698 | no part of a tag that a continuation completes is shown |
| TagTrimming.CutIsNeeded | llama_cpp_repo/common/chat-parser-xml-toolcall.cpp:669-698 | a cut is made only where some continuation completes a tag |
| TagTrimming.TrimGrows | llama_cpp_repo/common/chat-parser-xml-toolcall.cpp:669-698 | what is shown of a text begins what is shown of every longer text |
| MessageDiffs.StringDiffIff | llama_cpp_repo/common/chat.cpp:37-52 | a delta appended to the old text gives the new one exactly if the new text continues the old one |
| MessageDiffs.DeltaIff | llama_cpp_repo/common/chat.cpp:37-52 | a delta exists exactly if one of the two texts begins the other, and behind it the client holds the longer one, so that nothing is repeated |
| MessageDiffs.ComputeDiffs | llama_cpp_repo/common/chat.cpp:136-182 | the method emits the specified deltas, or the error for a lost call or a changed name |
| MessageDiffs.DiffsExistIff | llama_cpp_repo/common/chat.cpp:136-182 | deltas exist exactly if no text was changed in the middle, no call was lost, and the last known call kept its name; a lost call and a changed name have errors of their own |
| MessageDiffs.DiffsGive | llama_cpp_repo/common/chat.cpp:136-182 | what a client holds behind the deltas of any two messages |
| MessageDiffs.SilentIff | llama_cpp_repo/common/chat.cpp:136-182 | nothing is sent exactly if nothing new is to be held |
| MessageDiffs.DiffsRebuild | llama_cpp_repo/common/chat.cpp:136-182 | folding the deltas into the old message gives the new one exactly if the new one continues it |
| MessageDiffs.RunRebuilds | llama_cpp_repo/common/chat.cpp:136-182 | a client that folds all deltas of a run of growing messages ends with the last message |
| Utf8Truncation.TruncateSafe | llama_cpp_repo/common/chat-parser-xml-toolcall.cpp:27-50 | for a beginning of valid UTF-8, the backward loop finds the end of the longest valid beginning, at most 3 bytes back |
| Utf8Truncation.LongestIsLongest | llama_cpp_repo/common/chat-parser-xml-toolcall.cpp:27-50 | that beginning is valid, and no longer one is |
| Utf8Truncation.LongestGrows | llama_cpp_repo/common/chat-parser-xml-toolcall.cpp:27-50 | more bytes never shorten it |
| JsonGrammar.GrammarIsAccepted | llama_cpp_repo/common/json-partial.cpp:114-125 | every value written by the JSON grammar, with blanks around it, is accepted by the automaton |
| JsonParsing.AcceptedIffGrammar | llama_cpp_repo/common/json-partial.cpp:114-125 | the automaton accepts exactly the texts of the JSON grammar |
| JsonPrefixes.AliveIffPrefix | llama_cpp_repo/common/json-partial.cpp:118-140 | a text has not failed yet exactly if some continuation makes it complete |
| JsonSax.ErrorLocator.SaxParse | llama_cpp_repo/common/json-partial.cpp:40-116 | for a beginning of JSON with finite numbers, the stack is that of the open containers and keys, an error is found exactly if the text is incomplete, and its position is the end; otherwise the error is at the last character of the first number that is not finite, which is still due |
| JsonSax.ClosingOfElements | llama_cpp_repo/common/json-partial.cpp:160-170 | the closing text built from the stack closes the open containers innermost first |
| JsonCompletions.CloseIff | llama_cpp_repo/common/json-partial.cpp:133-170 | brackets close a text exactly if it stands behind a complete value, in a complete number, or in an empty container |
| JsonEscapes.PaddingLeads | llama_cpp_repo/common/json-partial.cpp:172-211 | the padding of an unfinished escape leads back to plain string text exactly if no surrogate pair is mistaken |
| JsonHealing.HealPendingValue | llama_cpp_repo/common/json-partial.cpp:215-242 | a text that stops before or in the value of a member is healed well exactly if it is not misread |
| JsonHealing.HealInArray | llama_cpp_repo/common/json-partial.cpp:243-266 | a text that stops directly in an array is healed well exactly if it is not misread; only there and in an object a `true` or `false` at the end is dropped |
| JsonHealing.HealInObject | llama_cpp_repo/common/json-partial.cpp:267-291 | a text that stops at or in a key or behind a member is healed well exactly if it is not misread |
| JsonHealing.HealTopLevel | llama_cpp_repo/common/json-partial.cpp:300-319 | of top-level scalars an open string is healed, all others are refused |
| JsonHealing.LeadsIff | llama_cpp_repo/common/json-partial.cpp:172-299 | inside a container the lead reaches plain string text exactly if the text stops in no number, in no unfinished literal and at no mistaken pair |
| JsonHealing.CommonJsonParse | llama_cpp_repo/common/json-partial.cpp:33-324 | with finite numbers, complete texts are left alone and others are healed well exactly if they are not misread, and by the last branch otherwise: the healed text parses and is determined by what is kept, and that is the whole input exactly if the lead reaches plain string text and the input does not stop at `true` or `false`, otherwise the input up to the `:`, `,` or `[` in front of its last scalar; otherwise the first number that is not finite is dropped with everything behind it |
| JsonHealing.NumberDropped | llama_cpp_repo/common/json-partial.cpp:215-291 | what is kept of a text that stops in a number ends in front of the number |
| JsonHealing.MisreadFails | llama_cpp_repo/common/json-partial.cpp:215-291 | a misread text has no good healing, and in a value the healed text does not even parse |
| JsonMisread.MisreadExample | llama_cpp_repo/common/json-partial.cpp:186-211 | a beginning of JSON that is misread |
| JsonMisread.LargeIsRefused | llama_cpp_repo/common/json-partial.cpp:114-125 | a beginning of JSON that is not misread and holds a number that is not read |
| JsonDumping.DumpIsDumped | llama_cpp_repo/vendor/nlohmann/json.hpp:8817-8973 | parsing a text of the grammar and dumping it, character by character, prints what its syntax tree is printed as |
| JsonDumping.ValueBuild | llama_cpp_repo/vendor/nlohmann/json.hpp:18840-18975 | the same for every value inside open containers, with members of the same key merged at the place of the first |
| JsonReadBack.DumpedStringReads | llama_cpp_repo/vendor/nlohmann/json.hpp:19112-19205 | every string that is printed is the text of a JSON string with the same characters |
| JsonReadBack.ReprintedReads | llama_cpp_repo/vendor/nlohmann/json.hpp:19112-19205 | a string that was read and printed in ASCII is read as the same string again |
| JsonOpen.BuiltFits | llama_cpp_repo/vendor/nlohmann/json.hpp:8885-8973 | what has been built of any text that can be completed fits the state of the reader |
| JsonKept.WrapParts | llama_cpp_repo/vendor/nlohmann/json.hpp:18880-18965 | the dump of open containers that are closed around a value is the value between a front and a back that do not depend on it |
| JsonKept.WrapInner | llama_cpp_repo/common/chat-parser.cpp:563-574 | the dump of the containers from one depth on is the value that stands in the dump of those outside of it |
| JsonKept.CloseBuilds | llama_cpp_repo/common/json-partial.cpp:160-170 | the closing brackets print the value and everything around it |
| JsonLead.LeadInString | llama_cpp_repo/vendor/nlohmann/json.hpp:19112-19205 | inside a string, what healing adds is printed verbatim behind what is printed of the kept text, unless it completes the escape of a printable character, which is printed as that character |
| JsonPlace.HealedIsDumped | llama_cpp_repo/common/json-partial.cpp:215-299 | the healed text parses, and its dump is the marker in its string inside the containers that were open |
| JsonMarker.FirstHitIff | llama_cpp_repo/common/chat-parser.cpp:563-574 | cutting at the first hit of a marker leaves what stands in front of it exactly if there is neither a hit in that nor one that overlaps it |
| JsonMarker.TakenDiffers | llama_cpp_repo/common/chat-parser.cpp:563-574 | if the completed key is in its object already, the cut never leaves what was kept |
| JsonMarker.CutIff | llama_cpp_repo/common/chat-parser.cpp:563-574 | for the dump of the text or of any open container in it: the cut at the first hit leaves what is printed of the kept text exactly if the marker completes no escape of a printable character, its key is new, it is not in that print and does not overlap its end |
| JsonMarker.HealedCutIff | llama_cpp_repo/common/chat-parser.cpp:563-574 | the same for every text that was healed well, with the dump taken of its syntax tree |
| JsonMarker.SafeMarker | llama_cpp_repo/common/chat-parser.cpp:137-143 | a marker without border and filler characters that is not in what is printed of the kept text is found where it was put, unless it completes the escape of a printable character |
| JsonCuts.CutTooEarly | llama_cpp_repo/common/chat-parser.cpp:563-574 | a marker that is not in the input and is found two characters early |
| JsonCuts.EscapeLosesCut | llama_cpp_repo/common/chat-parser.cpp:563-574 | a text with an open escape for which no marker is found where it was put |
| JsonCuts.NothingCut | llama_cpp_repo/common/chat-parser.cpp:563-574 | for one marker its dump, in which the dump marker is not found at all |
| JsonCuts.EscapeIsHit | llama_cpp_repo/common/chat-parser.cpp:563-574 | a marker that is not in the input and is found in an escape of the dump |
| ToolCallMapper.TrimTrailingSpace | llama_cpp_repo/common/chat-peg-parser.cpp:7-17 | without a limit all white space at the end goes, with a limit of 0 or more none |
| ToolCallMapper.ConstructedMapper.Map | llama_cpp_repo/common/chat-peg-parser.cpp:64-124 | one node changes the message and the pending-quote state by the specified step |
| ToolArguments.FromAst | llama_cpp_repo/common/chat-peg-parser.cpp:19-23 | visiting all nodes is running the steps in order |
| ToolArguments.ContentIsLast | llama_cpp_repo/common/chat-peg-parser.cpp:25-36 | behind any run of nodes the content is that of the last content node without the white space at its end, or what it was |
| ToolArguments.ReasoningIsLast | llama_cpp_repo/common/chat-peg-parser.cpp:25-36 | the same for reasoning |
| ToolArguments.CallsIgnoreTexts | llama_cpp_repo/common/chat-peg-parser.cpp:25-124 | content and reasoning nodes anywhere in a run change nothing about the calls |
| ToolArguments.NoCallNoEffect | llama_cpp_repo/common/chat-peg-parser.cpp:86-124 | nodes in front of the first call change no call |
| ToolArguments.QuoteIsCarriedOver | llama_cpp_repo/common/chat-peg-parser.cpp:75-124 | what a call without arguments gets, with a string of the call before it left open or not |
| ToolArguments.CallRun | llama_cpp_repo/common/chat-peg-parser.cpp:64-124 | the nodes of a whole call add one tool call with its name and printed arguments and leave no quote pending |
| ToolArguments.CallsRun | llama_cpp_repo/common/chat-peg-parser.cpp:64-124 | the nodes of any number of calls add these calls in order and touch neither content nor reasoning |
| ToolArguments.PrintedIff | llama_cpp_repo/common/chat-peg-parser.cpp:82-124 | the printed arguments are the JSON object of the arguments exactly if every string argument but the last is closed |
| ToolArguments.EveryPrefix | llama_cpp_repo/common/chat-peg-parser.cpp:64-124 | after every beginning of a call's nodes the arguments written so far begin the final ones |
| ToolArguments.GrowingValue | llama_cpp_repo/common/chat-peg-parser.cpp:99-116 | while the last value grows, what was written before stays |
| ToolArguments.ObjectIsJson | llama_cpp_repo/common/chat-peg-parser.cpp:82-124 | the object of arguments whose raw values are JSON is JSON |
| GbnfExcluding.CollectChildren | llama_cpp_repo/common/chat-parser-xml-toolcall.cpp:84-166 | the scan groups the sorted forbidden strings by their next character, without gaps |
| GbnfExcluding.BuildExpr | llama_cpp_repo/common/chat-parser-xml-toolcall.cpp:84-166 | the expression of a trie node accepts exactly the texts that follow a forbidden string and leave it by their last character |
| GbnfExcluding.MakeExcluding | llama_cpp_repo/common/chat-parser-xml-toolcall.cpp:84-166 | the unit accepts exactly those texts for the whole set, or any character if nothing is forbidden |
| GbnfExcluding.UnitsArePrefixFree | llama_cpp_repo/common/chat-parser-xml-toolcall.cpp:84-166 | no unit begins another |
| GbnfExcluding.SplitIsUnique | llama_cpp_repo/common/chat-parser-xml-toolcall.cpp:84-166 | a text splits into units in at most one way |
| GbnfExcluding.NoneAtBoundary | llama_cpp_repo/common/chat-parser-xml-toolcall.cpp:84-166 | no forbidden string begins where a unit begins, if none begins another |
| GbnfExcluding.FreeTextSplits | llama_cpp_repo/common/chat-parser-xml-toolcall.cpp:84-166 | every text without forbidden strings is a sequence of units and a proper beginning of a forbidden string |
| GbnfExcluding.ExcludesExactlyIff | llama_cpp_repo/common/chat-parser-xml-toolcall.cpp:84-166 | repeated units are exactly the texts without forbidden strings if and only if all of these have one character; if one begins another, some character occurs in none |
| GbnfExcluding.MatchesForbidden | llama_cpp_repo/common/chat-parser-xml-toolcall.cpp:84-166 | two units that together contain a forbidden string |
| GbnfExcluding.UnitBeginsForbidden | llama_cpp_repo/common/chat-parser-xml-toolcall.cpp:84-166 | a unit that begins with a forbidden string, because that one begins another |
| GbnfIntegers.UniformRange | llama_cpp_repo/common/json-schema-to-grammar.cpp:71-126 | the expression accepts exactly the numerals between two numerals of the same length |
| GbnfIntegers.BuildBetween | llama_cpp_repo/common/json-schema-to-grammar.cpp:143-154 | going through the lengths gives exactly the canonical numerals between two bounds |
| GbnfIntegers.BuildAtLeast | llama_cpp_repo/common/json-schema-to-grammar.cpp:157-207 | with only a lower bound the expression is right exactly if the bound is shorter than the limit and no inner digit of it is below 2 (as a continuation, the leading digit counts too), or if it is 11…10 with as many digits as the limit |
| GbnfIntegers.BuildMinMaxInt | llama_cpp_repo/common/json-schema-to-grammar.cpp:44-226 | an error without bounds; otherwise the expression accepts exactly the integers inside the bounds if and only if the bounds are sound, which two bounds always are |
| GbnfIntegers.UnsoundExamples | llama_cpp_repo/common/json-schema-to-grammar.cpp:157-223 | short and long bounds for which the expression is not exact, and some for which it is |
| Tensors.PermutedAt | llama_cpp_repo/convert_lora_to_gguf.py:163-174 | an element of a permuted tensor is the element whose index the permutation moves there |
| LoraTensors.ReshapeCommutes | llama_cpp_repo/convert_lora_to_gguf.py:131-155 | reshaping the factors reshapes the dense tensor |
| LoraTensors.ReshapeAcceptedIff | llama_cpp_repo/convert_lora_to_gguf.py:131-155 | of the shapes that the dense tensor takes, the factors take exactly those with two or more axes that keep the row size, if the leading axes of A have size 1 |
| LoraChains.PermuteCommutes | llama_cpp_repo/convert_lora_to_gguf.py:163-174 | permuting the factors permutes the dense tensor |
| LoraChains.PermuteAcceptedIff | llama_cpp_repo/convert_lora_to_gguf.py:163-174 | of the permutations that the dense tensor takes, the factors take exactly those that keep the last axis, if the leading axes of A have size 1, and the transposition of a matrix |
| LoraChains.DenseAcceptsIff | llama_cpp_repo/convert_lora_to_gguf.py:163-174 | what the factors take the dense tensor takes exactly if no dimension number is beyond its axes |
| LoraChains.UnknownDimensionAccepted | llama_cpp_repo/convert_lora_to_gguf.py:163-174 | dimension numbers that the factors take and the dense tensor does not |
| LoraChains.ChainCommutes | llama_cpp_repo/convert_lora_to_gguf.py:131-183 | any chain of reshapes, permutations and transpositions that both accept gives factors of the dense result |
| LoraChains.HeadPermutation | llama_cpp_repo/convert_hf_to_gguf.py:2215-2224 | the reordering of attention heads that the converter applies to weights works on the factors as on the dense tensor |
| LoraLayouts.ReshapeIff | llama_cpp_repo/convert_lora_to_gguf.py:131-155 | which reshapes of the dense tensor there are, with one free dimension at most, and that they keep the elements in order |
| LoraLayouts.TransposedAt | llama_cpp_repo/convert_lora_to_gguf.py:176-183 | a transposition exchanges two axes, or is refused for unknown ones |
| LoraLayouts.HeadRowsOfFactors | llama_cpp_repo/convert_hf_to_gguf.py:2215-2224 | which row of the dense tensor becomes which row when attention heads are reordered on the factors |
| LoraSlices.CutCommutes | llama_cpp_repo/convert_lora_to_gguf.py:59-115 | selecting from both factors selects from the dense tensor, if the entries agree axis by axis |
| LoraSlices.GetItemCommutes | llama_cpp_repo/convert_lora_to_gguf.py:59-115 | an accepted index that slices the last two axes gives fitting factors exactly if the sizes left agree, and then the selection of the dense tensor |
| LoraSlices.GetItemAcceptedIff | llama_cpp_repo/convert_lora_to_gguf.py:59-115 | of the indices that slice the last two axes, exactly those of the dense tensor are accepted, but not the empty tuple nor an integer beyond a broadcast axis |
| LoraSlices.IntegersOnBoth | llama_cpp_repo/convert_lora_to_gguf.py:59-115 | an accepted index with an integer on the last axis gives one axis more than the dense selection |
| LoraIntegers.IntegersAcceptedIff | llama_cpp_repo/convert_lora_to_gguf.py:73-115 | integers on both of the last two axes are accepted exactly if the dense tensor accepts the index and the last sliced axis of A has the size of the rank |
| LoraIntegers.AcceptedIff | llama_cpp_repo/convert_lora_to_gguf.py:59-115 | all indices that are accepted |
| LoraIntegers.GivesSelectionIff | llama_cpp_repo/convert_lora_to_gguf.py:59-115 | an accepted index gives the selection of the dense tensor exactly if it slices the last axis and the sizes left on the sliced leading axes agree |
| LoraIntegers.IntegersExample | llama_cpp_repo/convert_lora_to_gguf.py:73-115 | shapes and an index with integers on both of the last axes that is accepted |
| LoraIntegers.SliceExample | llama_cpp_repo/convert_lora_to_gguf.py:59-115 | a slice of the leading axis after which the factors do not fit |
| LoraJoins.StackCommutes | llama_cpp_repo/convert_lora_to_gguf.py:200-207 | stacking the factors stacks the dense tensors |
| LoraJoins.StackAcceptedIff | llama_cpp_repo/convert_lora_to_gguf.py:200-207 | the factors can be stacked exactly if the dense tensors can and ranks and leading axes are alike |
| LoraJoins.CatBatchesCommutes | llama_cpp_repo/convert_lora_to_gguf.py:208-216 | joining batches whose A has the leading size of B joins the dense tensors |
| LoraJoins.CatBatchesFitIff | llama_cpp_repo/convert_lora_to_gguf.py:208-216 | joined batches fit as factors exactly if there is one of them or all have equal leading sizes |
| LoraJoins.CatExample | llama_cpp_repo/convert_lora_to_gguf.py:208-216 | two batches whose join does not fit |
| LoraJoins.CatRowsCommutes | llama_cpp_repo/convert_lora_to_gguf.py:217-221 | joining matrices with the same A joins the dense matrices |
| LoraJoins.CatRowsAcceptedIff | llama_cpp_repo/convert_lora_to_gguf.py:217-223 | matrices are joined exactly if all have the same A |
| GgmlRecords.IndexIsLast | llama_cpp_repo/convert_llama_ggml_to_gguf.py:192-193 | a name leads to the last tensor that carries it |
| GgmlLoader.Hyperparameters.Load | llama_cpp_repo/convert_llama_ggml_to_gguf.py:59-73 | the fields are the seven words at the offset, or an error for a short file or an unknown type |
| GgmlLoader.Vocab.Load | llama_cpp_repo/convert_llama_ggml_to_gguf.py:84-98 | the loop appends the entries of the file and returns how far it got |
| GgmlLoader.Tensor.Load | llama_cpp_repo/convert_llama_ggml_to_gguf.py:110-131 | the fields are those of the record, and the length and the returned difference wrap around at 64 bits |
| GgmlLoader.LoadTensors | llama_cpp_repo/convert_llama_ggml_to_gguf.py:188-194 | the loop collects the records and the last position of each name |
| GgmlLoader.GgmlModel.Load | llama_cpp_repo/convert_llama_ggml_to_gguf.py:180-200 | loading sets header, parameters, vocabulary, tensors and index to what the file says, or fails with the first error |
| GgmlFiles.HeaderIff | llama_cpp_repo/convert_llama_ggml_to_gguf.py:145-166 | a header is read exactly if its bytes stand there |
| GgmlFiles.ParamsIff | llama_cpp_repo/convert_llama_ggml_to_gguf.py:59-73 | parameters are read exactly if their bytes stand there |
| GgmlFiles.ItemsIff | llama_cpp_repo/convert_llama_ggml_to_gguf.py:84-98 | entries that end in the file are read exactly if their bytes stand there |
| GgmlFiles.PrintedFileLoads | llama_cpp_repo/convert_llama_ggml_to_gguf.py:180-200 | loading a printed file ends and gives back every record |
| GgmlFiles.PayloadsFound | llama_cpp_repo/convert_llama_ggml_to_gguf.py:110-131 | the range noted for a tensor of a printed file holds its data |
| GgmlFiles.FeedForwardLoaded | llama_cpp_repo/convert_llama_ggml_to_gguf.py:53-57 | the feed-forward size of a printed file is the second dimension of the last record of that name; loading fails for lack of one exactly if there is none with two dimensions |
| GgmlFiles.EligibleIff | llama_cpp_repo/convert_llama_ggml_to_gguf.py:168-178 | a file is eligible exactly if its kind of data has been stored in the same form since its format |
| GgmlFiles.RefusedIff | llama_cpp_repo/convert_llama_ggml_to_gguf.py:145-184 | which files are refused as GGUF files, and which as not eligible |
| GgmlFiles.ExactlyPrintedFiles | llama_cpp_repo/convert_llama_ggml_to_gguf.py:180-200 | the files that load up to their end without stepping back are exactly the printed ones with a feed-forward tensor |
| GgmlRanges.SizeIsTrueIff | llama_cpp_repo/convert_llama_ggml_to_gguf.py:126-129 | the length is the number of bytes that the dimensions call for exactly if dimensions times type size is below 2^63 |
| GgmlRanges.GoesOnBehindIff | llama_cpp_repo/convert_llama_ggml_to_gguf.py:126-131 | reading goes on right behind these bytes exactly if their end is below 2^63 too |
| GgmlRanges.InOrderIff | llama_cpp_repo/convert_llama_ggml_to_gguf.py:188-194 | the ranges that were read are in file order, and so disjoint, exactly if no length is negative and no end is beyond 2^63 |
| GgmlRanges.GuardedInOrder | llama_cpp_repo/convert_llama_ggml_to_gguf.py:188-194 | records below these limits have ranges in order and of the sizes that their dimensions call for |
| GgmlRanges.RangesInOrder | llama_cpp_repo/convert_llama_ggml_to_gguf.py:188-194 | ranges are apart by at least a record's head, and all but the last end inside the file |
| GgmlRanges.ForwardEnds | llama_cpp_repo/convert_llama_ggml_to_gguf.py:188-194 | the loop ends if no record leads backwards |
| GgmlRanges.StepsBack | llama_cpp_repo/convert_llama_ggml_to_gguf.py:110-131 | a record of type I8 with dimensions 256, 268435455 and 268435457 has length -256 and sends the loader back |
| GgmlRanges.NeverEnds | llama_cpp_repo/convert_llama_ggml_to_gguf.py:188-194 | such a record with a name of 232 bytes keeps the loop on itself for ever |
| Base64Codec.Encode | llama_cpp_repo/common/base64.hpp:80-146 | the loop writes the encoding of the bytes, in groups of three and padded |
| Base64Codec.DecodeText | llama_cpp_repo/common/base64.hpp:200-246 | the loop over characters computes the decoding, with the alphabet detected on the way |
| Base64Codec.DecodeInPlace | llama_cpp_repo/common/base64.hpp:309-316 | decoding into the input's own buffer gives the decoding of the old contents and leaves the bytes behind it |
| Base64Codec.EncodedLength | llama_cpp_repo/common/base64.hpp:338-341 | the promised size is the length of the encoding |
| Base64Codec.DecodeSize | llama_cpp_repo/common/base64.hpp:324-331 | the decoded length is three quarters of the data characters, and within the promised maximum |
| Base64Codec.DecodeOkIff | llama_cpp_repo/common/base64.hpp:200-246 | under a fixed alphabet a text is decoded exactly if the characters in front of its padding are of that alphabet and, unless that does not matter, nothing but padding follows |
| Base64Codec.CutTextDecodes | llama_cpp_repo/common/base64.hpp:200-246 | an encoding that is cut off is decoded to the bytes of which all bits are there |
| Base64Codec.RoundTrip | llama_cpp_repo/common/base64.hpp:80-246 | decoding an encoding gives back the bytes, with the alphabet given or detected |
| Base64Codec.AutoIsEither | llama_cpp_repo/common/base64.hpp:344-391 | detection gives what the standard alphabet gives, and otherwise what the URL-safe one gives |
| Base64Codec.MixtureRejected | llama_cpp_repo/common/base64.hpp:344-391 | a text with characters of both alphabets is rejected |
| Escapes.ProcessEscapes | llama_cpp_repo/common/common.cpp:576-611 | the loop over the string's own buffer leaves the unescaped text |
| Escapes.UnescapeShrinks | llama_cpp_repo/common/common.cpp:576-611 | unescaping never lengthens a text, and leaves it alone if the length stays |
| Escapes.UnescapeSameIff | llama_cpp_repo/common/common.cpp:576-611 | a text is unchanged exactly if it has no escape that means something |
| Escapes.UnescapeHex | llama_cpp_repo/common/common.cpp:587-599 | unescaping undoes writing every byte as `\x` and two digits, in capitals or not |
| Escapes.SignedHex | llama_cpp_repo/common/common.cpp:587-599 | a blank or a sign and one digit are taken too, and a negative number wraps around |
| Escapes.UnescapeEscape | llama_cpp_repo/common/common.cpp:576-611 | unescaping undoes escaping |
| CsvRows.ParseCsvRow | llama_cpp_repo/common/arg.cpp:937-979 | the loop returns the specified fields |
| CsvRows.ParsePrinted | llama_cpp_repo/common/arg.cpp:937-979 | what is read of any row of cells: bare ones, quoted ones with text behind the closing quote, and a last one whose quotes are not closed |
| CsvRows.EveryRow | llama_cpp_repo/common/arg.cpp:937-979 | every row is made of such cells |
| CsvRows.BareReadsBackIff | llama_cpp_repo/common/arg.cpp:937-979 | a text is read as itself exactly if it has no comma and does not begin with a quote |
| NgramTable.NgramMod.Idx | llama_cpp_repo/common/ngram-mod.cpp:13-23 | the loop computes the polynomial of the tokens modulo 2^64, modulo the table size |
| NgramTable.NgramMod.Add | llama_cpp_repo/common/ngram-mod.cpp:25-33 | the table changes by the specified operation |
| NgramTable.AddKeepsUsedIff | llama_cpp_repo/common/ngram-mod.cpp:25-33 | adding keeps the counter right exactly if the token is not the marker of empty slots |
| NgramTable.UsedIsFilled | llama_cpp_repo/common/ngram-mod.cpp:25-52 | after any run with other tokens the counter is the number of slots in use |
| NgramTable.SlotHoldsLast | llama_cpp_repo/common/ngram-mod.cpp:25-44 | a slot holds the last token added under any key with that slot since the last reset |
| SambaConf.DeleteShareFromConf | NAS/app.py:993-1022 | the loop with its skip flag computes the deletion |
| SambaConf.UpdateSambaGlobalConf | NAS/app.py:898-943 | the loop with its section flag computes the update |
| SambaConf.UpdatedLines | NAS/app.py:912-933 | a line behind `[global]` with no other header between, not a comment, that sets one of the five keys gets its new value; every other line stays |
| SambaConf.HeaderIff | NAS/app.py:1004-1012 | a header is a name in brackets with white space around |
| SambaConf.StripIs | NAS/app.py:913 | stripping takes the white space at both ends, all of it and nothing else |
| SambaConf.DeleteRemovesSections | NAS/app.py:993-1022 | deleting removes exactly the sections with that name, with all their lines |
| SambaConf.DeleteNothingIff | NAS/app.py:993-1022 | a file is unchanged exactly if no header has that name |
| SambaConf.UpdateIsIdempotent | NAS/app.py:898-943 | a second update with the same values changes nothing |
| SambaConf.UpdateDeleteCommute | NAS/app.py:898-1022 | updating and deleting can be exchanged |
| SambaConf.DeleteAfterAdd | NAS/app.py:977-1022 | deleting a share that was just added is deleting that name in the old file |
| SambaConf.AddedLines | NAS/app.py:977-991 | the lines of a file behind adding a share, each of them |
| SambaConf.AddThenDelete | NAS/app.py:977-1022 | adding and deleting a new share leaves the old file and a line break |
| SambaConf.UpdateTextTwice | NAS/app.py:898-943 | the same for whole files as texts, written and read again |
| SambaConf.UpdateAndDeleteText | NAS/app.py:898-1022 | on whole files as texts, updating and deleting can be exchanged |

## Left out

- The web application around the Samba functions, files, permissions, clocks, logging and the network.
- The small steps of the message parser (`add_tool_call`, `consume_spaces`, `try_consume_literal`).
- The PEG engine, the regular-expression parsers, the XML tool-call parser apart from its trimming, and the
  templates of chat.cpp.
- nlohmann's reader: its events come from the automaton, so positions inside malformed text, texts that are
  not the beginning of JSON, bytes that are not UTF-8, and the text of keys on the SAX stack are not modelled.
- How a number is printed: `JsonMarker` holds for every printer that prints digits, signs, point and exponent,
  and 1 as 1. That `double` values are finite is a parameter of `JsonHealing.CommonJsonParse`.
- `common_json_parse` returns values; here the healed text is the result, and its dump is that of the parsed
  text. Which part of the arguments is dumped is the depth in `JsonMarker`; strings at an argument path, and
  content paths, which the source treats apart, are not modelled.
- Healing markers are taken to be plain ASCII characters that need no escape; the program draws decimal numbers.
- Characters that UTF-8 writes in several bytes, where a string is cut: only `Utf8Truncation` is about them.
- StreamParser.MsgParser.TryParseReasoning: requires that the tags are not both empty; with two empty tags
  the loop of the source need not end.
- StreamSafety.ReasoningGrows: reasoning that is shown inside the content is followed from partial answers
  only, since a complete answer may close its tag; the tags are not both empty.
- StreamReading.AnswerIsRead: neither tag is empty, and the start tag does not begin with white space.
- GbnfExcluding.ExcludesExactlyIff: sets in which one string begins another and that use up all characters
  are left out; forbidden strings are ASCII.
- GbnfExcluding.MakeExcluding: forbidden strings are ASCII; the escapes of the grammar text are not modelled.
- GbnfIntegers.BuildMinMaxInt: two bounds are in order. The grammar is an expression, not its text.
- LoraJoins.CatBatchesFitIff: for batches that are not empty.
- Ellipsis, slice steps and tensors as entries of a LoRA index; data types and rounding: numbers are reals.
- LoraLayouts.HeadRowsOfFactors: for a matrix whose number of rows is twice a multiple of the number of heads.
- LoraTensors.ReshapeAcceptedIff: for factors without an axis of size 0 in rank or row.
- GgmlLoader.GgmlModel.Load: the loop over tensors need not end, so it is followed for a number of rounds;
  offsets of 2^63 and more are not met in files below that size.
- GGML scores are bytes, not floating-point numbers; the GGUF writer is not modelled.
- Escapes.ProcessEscapes: characters are those of the string's bytes; a hex escape gives one of them.
- SambaConf: white space of `str.strip` is known up to code point 255, and newline translation is left out.
- NgramTable.NgramMod.Idx: the table has at least one slot; the source divides by its size.
