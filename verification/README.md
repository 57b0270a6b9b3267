# espeak-phonemizer, modelled in Dafny

espeak-phonemizer turns text into IPA phonemes by driving the eSpeak-ng
speech engine through `ctypes`. It has three parts, and this project models
the logic of each:

- **The terminator phonemizer** (`espeak_phonemizer.Phonemizer`,
  `terminator_phonemizer.dfy`). The engine answers clause by clause with
  the clause's phonemes and a 32-bit terminator word. The phonemizer
  builds one string: each clause's phonemes, the clause's punctuation
  (looked up through the terminator's low 20 bits), and a sentence
  separator or a space. It then removes language-switch flags, re-joins
  words, removes stress, squeezes runs of the phoneme separator and strips
  the ends.
- **The stream phonemizer** (`util_espeak_ng_phonemizer.Phonemizer`,
  `stream_phonemizer.dfy`). It has two strategies:
  - the memory-stream strategy reads a phoneme trace written to an
    in-memory file;
  - the no-stream strategy makes one `espeak_TextToPhonemes` call per
    clause.

  Both then rewrite the resulting lines: language flags, word re-join,
  re-insertion of the clause breakers found in the text, strip-and-join,
  stress, and separator runs.
- **The phoneme-id builder** (`phoneme_ids.main`, `phoneme_ids.dfy`).
  An optional `ID PHONEME` file seeds a phoneme-to-id map. The reserved
  symbols (pad, BOS, EOS, the blank and the stress marks) get fresh ids,
  each equal to the map's size. A first pass over the input collects every
  phoneme. The phonemes without an id then get ids in sorted order. A
  second pass writes every input line as ids.

The engine is never called. Each phonemizer's methods receive the engine's
answers as a value (`EngineReplies`), and the phonemizer objects keep a log
of the engine calls they issue (`calls`). So the order and the arguments of
the calls are part of what the methods promise.

Shared pieces:
- `espeak.dfy`: the engine constants, the flag packing and the voice calls.
- `phoneme_text.dfy`: the regular-expression rewrites.
- `py_strings.dfy`, `py_ints.dfy`, `string_order.dfy`: Python's `str`
  operations, `int`/`str` of integers, and `sorted` on strings.
- `wrappers.dfy`: `Option` and `Result`.

The terminator phonemizer sends the voice only when it differs from the
current one, and a refused voice is an error there. The stream phonemizer
sends the voice on every call and only logs the engine's status. This
split follows the code.

## Model

| member | source | states |
|---|---|---|
| PyStrings.Strip | espeak_phonemizer/phoneme_ids.py:138 | `str.strip()` is a slice of its input with only whitespace cut on either side and no whitespace left at either end |
| PyStrings.LStrip | espeak_phonemizer/phoneme_ids.py:138 | `str.lstrip()`: a suffix of the text, everything cut is whitespace, and it does not start with whitespace |
| PyStrings.RStrip | espeak_phonemizer/phoneme_ids.py:138 | `str.rstrip()`: a prefix of the text, everything cut is whitespace, and it does not end with whitespace |
| PyStrings.StripIdempotent | espeak_phonemizer/phoneme_ids.py:177-179 | stripping twice is stripping once |
| PyStrings.Words | espeak_phonemizer/util_espeak_ng_phonemizer.py:202 | `str.split()` yields non-empty words without whitespace, in order (which words: `WordsOfSpaces`, `WordsOfOneWord`, `WordsAcrossSpace`) |
| PyStrings.WordsChars | espeak_phonemizer/util_espeak_ng_phonemizer.py:202 | every character of every word comes from the text |
| PyStrings.WordsOfSpaces | espeak_phonemizer/util_espeak_ng_phonemizer.py:202 | a text of whitespace only has no words |
| PyStrings.WordsOfOneWord | espeak_phonemizer/util_espeak_ng_phonemizer.py:202 | a non-empty text without whitespace is one word |
| PyStrings.WordsAcrossSpace | espeak_phonemizer/util_espeak_ng_phonemizer.py:202 | a whitespace character cuts the words: the words of `a + [x] + b` are those of `a` followed by those of `b` |
| PyStrings.WordsOfJoin | espeak_phonemizer/util_espeak_ng_phonemizer.py:201-202 | splitting on whitespace undoes joining words with one space |
| PyStrings.Split | espeak_phonemizer/phoneme_ids.py:143-151 | `str.split(sep)` gives at least one part, no part contains `sep`, and joining the parts with `sep` gives the text back; each cut is at the leftmost occurrence (`SplitLeftmost`) |
| PyStrings.Join | espeak_phonemizer/__init__.py:171 | definition; no contract: `sep.join(parts)` |
| PyStrings.SplitLeftmost | espeak_phonemizer/phoneme_ids.py:143-151 | every part but the last, followed by `sep`, has its first occurrence of `sep` right after the part |
| PyStrings.SplitUnique | espeak_phonemizer/phoneme_ids.py:143-151 | the parts are the only ones with those properties: any parts that join to the text, contain no `sep` and whose cuts are leftmost are the split |
| PyStrings.SeparatorAfter | espeak_phonemizer/util_espeak_ng_phonemizer.py:198-203 | a piece without the separator's first character, followed by the separator, finds the separator right after the piece |
| PyStrings.Find | espeak_phonemizer/phoneme_ids.py:80 | the first index where the separator occurs, or none when it occurs nowhere |
| PyStrings.JoinSplitIsReplace | espeak_phonemizer/__init__.py:171 | `t.join(s.split(c))` replaces every `c` of `s` by `t` |
| PyStrings.Replace | espeak_phonemizer/__init__.py:171 | definition; no contract: every `c` replaced by `t` |
| PyStrings.ReplaceKeepsOthers | espeak_phonemizer/__init__.py:171 | that replacement keeps the count of every other character not in `t` |
| PyInts.ParseSigned | espeak_phonemizer/phoneme_ids.py:81 | a text is accepted exactly when it is digits with at most one leading sign, and its value is the digits' value, negated after a `-` |
| PyInts.ParseInt | espeak_phonemizer/phoneme_ids.py:81 | definition; no contract: `int(s)` is the signed parse of the stripped text (properties: `IntRoundTrip`) |
| PyInts.NatToString | espeak_phonemizer/phoneme_ids.py:213 | the decimal digits of a natural number: non-empty, digits only, and no leading zero except for 0 itself |
| PyInts.IntToString | espeak_phonemizer/phoneme_ids.py:213 | `str(n)` is non-empty and has no whitespace |
| PyInts.IntRoundTrip | espeak_phonemizer/phoneme_ids.py:81 | `int(str(n)) == n` for every integer |
| StringOrder.LessTransitive | espeak_phonemizer/phoneme_ids.py:169 | Python's string order is transitive |
| StringOrder.Less | espeak_phonemizer/phoneme_ids.py:169 | definition; no contract: Python's lexicographic order on strings (properties: `LessTransitive`, `LessTotal`) |
| StringOrder.LessTotal | espeak_phonemizer/phoneme_ids.py:169 | two different strings are always ordered |
| StringOrder.SortedUnique | espeak_phonemizer/phoneme_ids.py:169 | only one strictly increasing sequence has a given set of strings |
| StringOrder.Insert | espeak_phonemizer/phoneme_ids.py:169 | inserting a new string into a strictly increasing sequence keeps it strictly increasing and adds exactly that string |
| StringOrder.SortedSeq | espeak_phonemizer/phoneme_ids.py:169 | the strictly increasing sequence of a set's strings: exactly the set's members, each once |
| StringOrder.Sorted | espeak_phonemizer/phoneme_ids.py:169 | `sorted` of a set: strictly increasing, holding exactly the set's strings, each once |
| PhonemeText.CloseParen | espeak_phonemizer/__init__.py:58 | the index of the first `)`, or none when there is no `)` |
| PhonemeText.RemoveLangFlags | espeak_phonemizer/__init__.py:165-167 | after `LANG_SWITCH_FLAG.sub`, no `(`…`)` flag is left; the result is no longer than the input and uses only its characters (where each flag goes: `RemoveLangFlagsSkip`) |
| PhonemeText.CloseParenAfter | espeak_phonemizer/__init__.py:58 | after `(` a flag body without `)` ends at the next `)` |
| PhonemeText.RemoveLangFlagsSkip | espeak_phonemizer/__init__.py:165-167 | a flag `(f)` after flag-free text `a` is cut out, and the text around it is kept: `a + "(" + f + ")" + b` becomes `a` followed by the cleaned `b` |
| PhonemeText.FlaggedWord | tests/test_phonemizer.py:81-92 | a word between two language flags comes out alone, as `(en)lˈaɪbɹəɹi(fr)` gives `lˈaɪbɹəɹi` |
| PhonemeText.LangFlagFixedPoints | espeak_phonemizer/__init__.py:58 | the flag removal leaves a text unchanged exactly when it has no flag |
| PhonemeText.RemoveLangFlagsIdempotent | espeak_phonemizer/util_espeak_ng_phonemizer.py:192-196 | removing the flags twice is removing them once |
| PhonemeText.RemoveStress | espeak_phonemizer/__init__.py:173-175 | no stress mark is left (what is kept, in order: `RemoveStressAppend`, `RemoveStressCounts`) |
| PhonemeText.RemoveStressAppend | espeak_phonemizer/__init__.py:173-175 | stress removal works piece by piece, so the order of the kept characters is the input's |
| PhonemeText.RemoveStressCounts | espeak_phonemizer/__init__.py:173-175 | every character other than a stress mark occurs as often as in the input |
| PhonemeText.StressFixedPoints | espeak_phonemizer/__init__.py:60 | stress removal leaves a text unchanged exactly when it has no stress mark |
| PhonemeText.RemoveStressIdempotent | espeak_phonemizer/util_espeak_ng_phonemizer.py:218-220 | removing stress twice is removing it once |
| PhonemeText.DropRun | espeak_phonemizer/__init__.py:177-183 | the suffix left after the leading run of the separator: everything cut is the separator and the result does not start with it |
| PhonemeText.NoDoubledAt | espeak_phonemizer/__init__.py:177-183 | no doubled separator, stated recursively, is the same as no index where the separator is followed by itself |
| PhonemeText.DropRunCounts | espeak_phonemizer/__init__.py:177-183 | dropping the run keeps the count of every character other than the separator |
| PhonemeText.DropRunAppend | espeak_phonemizer/__init__.py:177-183 | dropping the run of `a + b` stops inside `a` unless `a` is all separator |
| PhonemeText.CollapseRuns | espeak_phonemizer/__init__.py:177-183 | after the `[sep]+` → `sep` rewrite, no two separators are adjacent; the result is empty only for an empty text and starts with the same character (piece by piece: `CollapseAppend`, `CollapseRun`) |
| PhonemeText.CollapseRun | espeak_phonemizer/__init__.py:177-183 | a whole run of the separator becomes one separator |
| PhonemeText.CollapseAppend | espeak_phonemizer/__init__.py:177-183 | squeezing distributes over a concatenation whose cut is not inside a run of the separator |
| PhonemeText.CollapseKeepsOthers | espeak_phonemizer/__init__.py:179-183 | squeezing keeps the count of every character other than the separator |
| PhonemeText.CollapseKeepsSeparator | espeak_phonemizer/__init__.py:179-183 | the separator appears in the result exactly when it appears in the input |
| PhonemeText.CollapseFixedPoints | espeak_phonemizer/util_espeak_ng_phonemizer.py:222-228 | squeezing leaves a text unchanged exactly when no separator is doubled |
| PhonemeText.CollapseRunsIdempotent | espeak_phonemizer/util_espeak_ng_phonemizer.py:222-228 | squeezing twice is squeezing once |
| PhonemeText.CollapseKeepsStressFree | espeak_phonemizer/__init__.py:173-183 | squeezing after stress removal keeps the text stress-free |
| PhonemeText.Tidy | espeak_phonemizer/util_espeak_ng_phonemizer.py:218-228 | stress-free when `no_stress` is set, no doubled phoneme separator when there is one, and the input unchanged when neither is asked for |
| Espeak.OrDisjoint | espeak_phonemizer/__init__.py:133 | `a \| (b << n)` is `a + (b << n)` when `a` fits below bit `n` |
| Espeak.PhonemeFlags | espeak_phonemizer/__init__.py:131-133 | the phoneme flag's low byte is `espeakPHONEMES_IPA` and the bits above it hold the separator's code point, or 0 for no separator |
| Espeak.SeparatorRoundTrip | espeak_phonemizer/util_espeak_ng_phonemizer.py:340-342 | the separator can be read back from the flag, except that a NUL separator reads as no separator |
| Espeak.PhonemesOrSsml | espeak_phonemizer/util_espeak_ng_phonemizer.py:297-299 | the phoneme bit and the SSML bit are disjoint |
| Espeak.BitsOfSynthFlags | espeak_phonemizer/util_espeak_ng_phonemizer.py:50-51 | bit 8 is `espeakPHONEMES` and bit 4 is `espeakSSML` |
| Espeak.SynthFlags | espeak_phonemizer/util_espeak_ng_phonemizer.py:297-299 | the synthesis flags always carry the phoneme bit, carry the SSML bit exactly for SSML input, and carry nothing else |
| Espeak.EffectiveVoice | espeak_phonemizer/util_espeak_ng_phonemizer.py:132 | `voice or default_voice`: a given non-empty voice wins, otherwise the default |
| Espeak.VoiceCallFor | espeak_phonemizer/util_espeak_ng_phonemizer.py:140-160 | a voice goes by file (its resolved path) exactly when its expanded path is absolute, otherwise by name |
| Espeak.Repeat | espeak_phonemizer/util_espeak_ng_phonemizer.py:351-359 | the log of `n` identical engine calls has length `n` and holds only that call |
| StreamPhonemizer.CollectBreakers | espeak_phonemizer/util_espeak_ng_phonemizer.py:168-170 | the breakers collected from the text are breakers only, each as often as it occurs in the text |
| StreamPhonemizer.MissingBreakers | espeak_phonemizer/util_espeak_ng_phonemizer.py:168-170 | definition; no contract: the text's breakers, collected only with `keep_clause_breakers` and a non-empty breaker set |
| StreamPhonemizer.CollectBreakersAppend | espeak_phonemizer/util_espeak_ng_phonemizer.py:170 | collecting keeps the text's order: it distributes over concatenation |
| StreamPhonemizer.Present | espeak_phonemizer/util_espeak_ng_phonemizer.py:355-359 | the kept lines are no more than the engine's answers, and a line is kept exactly when it is one of the non-NULL answers |
| StreamPhonemizer.PresentOne | espeak_phonemizer/util_espeak_ng_phonemizer.py:355-359 | a NULL answer is dropped and any other answer kept |
| StreamPhonemizer.PresentAppend | espeak_phonemizer/util_espeak_ng_phonemizer.py:351-359 | keeping non-NULL answers distributes over concatenation, so order is kept |
| StreamPhonemizer.StripLangFlags | espeak_phonemizer/util_espeak_ng_phonemizer.py:192-196 | as many lines, none with a flag left and none longer than before |
| StreamPhonemizer.RejoinKeepsWords | espeak_phonemizer/util_espeak_ng_phonemizer.py:198-203 | re-joining with a single space keeps a line's words |
| StreamPhonemizer.Rejoin | espeak_phonemizer/util_espeak_ng_phonemizer.py:198-203 | definition; no contract: `word_separator.join(line.split())` |
| StreamPhonemizer.RejoinAll | espeak_phonemizer/util_espeak_ng_phonemizer.py:198-203 | as many lines, and line `i` is line `i` of the input re-joined (what a re-joined line holds: `RejoinSplitsBack`) |
| StreamPhonemizer.RejoinSplitsBack | espeak_phonemizer/util_espeak_ng_phonemizer.py:198-203 | for a separator that starts with whitespace or with a character the line lacks, splitting the re-joined line by the separator gives back the line's words |
| StreamPhonemizer.StripAll | espeak_phonemizer/util_espeak_ng_phonemizer.py:214-216 | as many lines, each without whitespace at its ends |
| StreamPhonemizer.Format | espeak_phonemizer/util_espeak_ng_phonemizer.py:192-230 | the text stages give a stress-free result when asked, and never two phoneme separators in a row |
| StreamPhonemizer.FormatIgnoresAbsentBreakers | espeak_phonemizer/util_espeak_ng_phonemizer.py:168-170 | `keep_clause_breakers` changes nothing for a text without breakers |
| StreamPhonemizer.RejoinWords | espeak_phonemizer/util_espeak_ng_phonemizer.py:198-203 | in place, every line becomes its words joined by the word separator |
| StreamPhonemizer.ReinsertBreakers | espeak_phonemizer/util_espeak_ng_phonemizer.py:205-212 | in place, line `i` gains the punctuation separator and breaker `i` when breaker `i` exists; every other line is unchanged |
| StreamPhonemizer.Reinserted | espeak_phonemizer/util_espeak_ng_phonemizer.py:205-212 | as many lines; every line starts with its input line, a line with a breaker continues with exactly the punctuation separator and that breaker, and the lines past the last breaker are unchanged |
| StreamPhonemizer.FormatLines | espeak_phonemizer/util_espeak_ng_phonemizer.py:192-230 | the in-place stages compute `Format` |
| StreamPhonemizer.Phonemizer.constructor | espeak_phonemizer/util_espeak_ng_phonemizer.py:66-83 | an empty or absent breaker collection falls back to the defaults; nothing is loaded, no voice is current and no call is made |
| StreamPhonemizer.Phonemizer.MaybeInit | espeak_phonemizer/util_espeak_ng_phonemizer.py:232-256 | does nothing once loaded. Otherwise the library is marked loaded and initialized once; this fails exactly for a non-positive sample rate; libc is loaded only for the memory strategy after a successful initialization |
| StreamPhonemizer.Phonemizer.NoStreamLines | espeak_phonemizer/util_espeak_ng_phonemizer.py:340-361 | one call per clause, all with the same flags; the lines are the non-NULL answers in order |
| StreamPhonemizer.Phonemizer.PhonemeLines | espeak_phonemizer/util_espeak_ng_phonemizer.py:272-361 | each strategy's lines and calls. The memory strategy sets the trace and synthesizes only when both libraries are loaded; the no-stream strategy makes its loop only when the engine is loaded |
| StreamPhonemizer.RawLines | espeak_phonemizer/util_espeak_ng_phonemizer.py:272-361 | definition; no contract: each strategy's lines from the engine's answers, given which libraries are loaded |
| StreamPhonemizer.ReadCalls | espeak_phonemizer/util_espeak_ng_phonemizer.py:272-361 | definition; no contract: each strategy's engine calls, given which libraries are loaded |
| StreamPhonemizer.Phonemizer.ApplyVoice | espeak_phonemizer/util_espeak_ng_phonemizer.py:132-166 | a given voice becomes current and is sent to the engine by name or by file; without one, nothing changes |
| StreamPhonemizer.Phonemizer.Phonemize | espeak_phonemizer/util_espeak_ng_phonemizer.py:94-230 | SSML without a stream fails and changes nothing; a failed initialization is reported and leaves the voice alone; a `\` phoneme separator fails with `BadEscape` after the engine calls; otherwise the exact call log, the new current voice and the result `Format` of the strategy's lines |
| TerminatorPhonemizer.TerminatorValues | espeak_phonemizer/__init__.py:35-56 | the `CLAUSE_*` terminator words, computed from their parts |
| TerminatorPhonemizer.DefaultKeysMasked | espeak_phonemizer/__init__.py:62-71 | every default punctuation key survives `PUNCTUATION_MASK`, so each default terminator finds its own punctuation |
| TerminatorPhonemizer.EndsSentence | espeak_phonemizer/__init__.py:158-163 | definition; no contract: the terminator has all bits of `CLAUSE_TYPE_SENTENCE` |
| TerminatorPhonemizer.PunctuationOf | espeak_phonemizer/__init__.py:152-155 | definition; no contract: the punctuation of the masked terminator, or nothing |
| TerminatorPhonemizer.NoDefaultPunctuation | espeak_phonemizer/__init__.py:152-155 | the end of the text, a paragraph break and no clause add no punctuation under the defaults |
| TerminatorPhonemizer.DefaultSentenceEnds | espeak_phonemizer/__init__.py:158-163 | `.`, `?`, `!`, the end of the text and a paragraph end a sentence; `,`, `:`, `;` and no clause do not |
| TerminatorPhonemizer.Piece | espeak_phonemizer/__init__.py:148-163 | definition; no contract: a clause's phonemes, punctuation when kept, then the sentence separator or a space (properties: `AssembleStep`, `PeriodSentence`, `CommaClause`) |
| TerminatorPhonemizer.Assemble | espeak_phonemizer/__init__.py:140-163 | definition; no contract: the pieces of the clauses in order (properties: `AssembleStep`, `AssembleAppend`) |
| TerminatorPhonemizer.AssembleStep | espeak_phonemizer/__init__.py:140-163 | one more clause appends that clause's piece |
| TerminatorPhonemizer.AssembleAppend | espeak_phonemizer/__init__.py:140-163 | assembling consecutive runs of clauses is concatenating their assemblies |
| TerminatorPhonemizer.PeriodSentence | espeak_phonemizer/__init__.py:148-163 | a period clause gives its phonemes, `.` and the sentence separator; without kept punctuation, phonemes and separator only |
| TerminatorPhonemizer.CommaClause | espeak_phonemizer/__init__.py:148-163 | a comma clause gives its phonemes, `,` and a space |
| TerminatorPhonemizer.ReplaceSpacesKeepsOthers | espeak_phonemizer/__init__.py:169-171 | the word-separator rewrite replaces each space and keeps every other character, so sentence separators survive it |
| TerminatorPhonemizer.ReplaceSpaces | espeak_phonemizer/__init__.py:169-171 | definition; no contract: `word_separator.join(s.split(" "))` (properties: `JoinSplitIsReplace`, `ReplaceSpacesKeepsOthers`) |
| TerminatorPhonemizer.StripKept | espeak_phonemizer/__init__.py:185 | the final `strip()` keeps the text stress-free and keeps separators undoubled |
| TerminatorPhonemizer.PostProcess | espeak_phonemizer/__init__.py:165-185 | the post-loop rewrites give a stress-free result when asked, no doubled phoneme separator, and no whitespace at either end |
| TerminatorPhonemizer.PostProcessText | espeak_phonemizer/__init__.py:165-185 | the rewrites applied one after the other compute `PostProcess` |
| TerminatorPhonemizer.AppendPiece | espeak_phonemizer/__init__.py:148-163 | one loop turn appends the clause's phonemes, its punctuation when kept, and the sentence separator or a space |
| TerminatorPhonemizer.Phonemizer.constructor | espeak_phonemizer/__init__.py:73-86 | nothing is loaded, no voice is current and no call is made |
| TerminatorPhonemizer.Phonemizer.MaybeInit | espeak_phonemizer/__init__.py:187-208 | does nothing once loaded. Otherwise the library is set and initialized once; this fails exactly for a non-positive sample rate |
| TerminatorPhonemizer.Phonemizer.AssembleClauses | espeak_phonemizer/__init__.py:131-163 | one call per clause, all with the same flags; the text built is the assembly of the clauses |
| TerminatorPhonemizer.Phonemizer.Phonemize | espeak_phonemizer/__init__.py:88-185 | a failed initialization is reported, exactly for a first call with a non-positive sample rate. Otherwise the effective voice becomes current and is sent by name only when it differs from the current voice; a refused voice is an error exactly when it was sent and not accepted; a `\` phoneme separator fails with `BadEscape` after the clause calls. On success: the exact call log, and the result is the post-processed assembly of the clauses |
| PhonemeIds.StripNewlines | espeak_phonemizer/phoneme_ids.py:76 | a slice of the line with `\r`/`\n` cut at the ends and none left there (everything cut is a newline: `StripNewlinesCuts`) |
| PhonemeIds.StripNewlinesCuts | espeak_phonemizer/phoneme_ids.py:76 | everything `strip("\r\n")` cuts, at either end, is `\r` or `\n` |
| PhonemeIds.ParseIdEntry | espeak_phonemizer/phoneme_ids.py:76-81 | an id-file line is skipped exactly when it is empty, a comment, or has no space; an entry's phoneme is everything after the first space and its id the parse of the text before it; a failure carries the bad line |
| PhonemeIds.IdEntryAtFirstSpace | espeak_phonemizer/phoneme_ids.py:76-81 | for a non-comment line with a first space, parsing fails exactly when the text before that space is not an integer, and otherwise gives that integer and the rest of the line |
| PhonemeIds.ParseIdLine | espeak_phonemizer/phoneme_ids.py:76-81 | definition; no contract: one line of the id file, newlines stripped, then parsed |
| PhonemeIds.ParseLines | espeak_phonemizer/phoneme_ids.py:74-81 | every line of the id file parsed, in order |
| PhonemeIds.Load | espeak_phonemizer/phoneme_ids.py:74-82 | definition; no contract: the parsed lines folded into a map, stopping at the first failure (properties: `LoadFails`, `LoadLastWins`, `LoadStep`) |
| PhonemeIds.IdFile | espeak_phonemizer/phoneme_ids.py:69-82 | definition; no contract: the map the id file defines (properties: `IdFileFails`) |
| PhonemeIds.IdFileFails | espeak_phonemizer/phoneme_ids.py:74-82 | reading the id file fails exactly when some line's `int` parse fails |
| PhonemeIds.LoadFails | espeak_phonemizer/phoneme_ids.py:74-82 | folding the parsed lines fails exactly when some parsed line is a failure |
| PhonemeIds.LoadFailsExtend | espeak_phonemizer/phoneme_ids.py:81 | the first bad line's error is the error of the whole file |
| PhonemeIds.LoadLastWins | espeak_phonemizer/phoneme_ids.py:82 | the map's phonemes are those of the entry lines, and each keeps the id of its last entry |
| PhonemeIds.LoadStep | espeak_phonemizer/phoneme_ids.py:75-82 | one more line fails, is skipped, or sets its phoneme's id |
| PhonemeIds.LoadIdFile | espeak_phonemizer/phoneme_ids.py:69-82 | the reading loop computes the map (or error) the file defines |
| PhonemeIds.WithSymbol | espeak_phonemizer/phoneme_ids.py:98-99 | a new symbol gets id `len(map)`, all old ids are kept, and a known symbol changes nothing |
| PhonemeIds.WithSymbols | espeak_phonemizer/phoneme_ids.py:169-171 | after adding symbols, the map holds the old keys and the symbols, with the old ids unchanged |
| PhonemeIds.WithSymbolDense | espeak_phonemizer/phoneme_ids.py:99 | adding one symbol keeps the ids exactly `0 … len-1` |
| PhonemeIds.WithSymbolsDense | espeak_phonemizer/phoneme_ids.py:169-171 | adding symbols keeps the ids dense, so no two phonemes share an id |
| PhonemeIds.WithSymbolsFresh | espeak_phonemizer/phoneme_ids.py:169-171 | the map only grows, and each new symbol's id is at or past the old size |
| PhonemeIds.WithSymbolsInOrder | espeak_phonemizer/phoneme_ids.py:169-171 | symbols seen for the first time get increasing ids in the order they are added |
| PhonemeIds.WithSymbolsAppend | espeak_phonemizer/phoneme_ids.py:84-110 | adding `a + b` is adding `a` then `b` |
| PhonemeIds.StressSymbolsSorted | espeak_phonemizer/phoneme_ids.py:108 | `sorted(_STRESS)` is primary then secondary stress, and holds exactly the two stress marks |
| PhonemeIds.PadIsZero | espeak_phonemizer/phoneme_ids.py:84-86 | without an id file, the pad symbol is phoneme 0 |
| PhonemeIds.AddSymbol | espeak_phonemizer/phoneme_ids.py:98-99 | the conditional insert computes `WithSymbol` |
| PhonemeIds.AddSymbols | espeak_phonemizer/phoneme_ids.py:169-171 | the loop computes `WithSymbols` |
| PhonemeIds.OptionalStep | espeak_phonemizer/phoneme_ids.py:84-94 | an empty pad, BOS or EOS adds nothing |
| PhonemeIds.ReservedSteps | espeak_phonemizer/phoneme_ids.py:84-110 | the reserved symbols are added in five steps: pad, BOS, EOS, blank, stress |
| PhonemeIds.ReservedSymbols | espeak_phonemizer/phoneme_ids.py:84-110 | definition; no contract: pad, BOS, EOS, the blank and the sorted stress marks, each when asked for |
| PhonemeIds.WordSepText | espeak_phonemizer/phoneme_ids.py:96-103 | definition; no contract: the blank's id between spaces with `--add-blank`, else the word separator |
| PhonemeIds.AddOptional | espeak_phonemizer/phoneme_ids.py:84-94 | a given pad, BOS or EOS symbol gets the next id |
| PhonemeIds.AddReserved | espeak_phonemizer/phoneme_ids.py:84-110 | the reserved symbols get ids; with `--add-blank` the word separator has one, and the text between words is the blank's id between spaces (or the separator) |
| PhonemeIds.Chars | espeak_phonemizer/phoneme_ids.py:150 | `list(word)`: one one-character string per character |
| PhonemeIds.JoinChars | espeak_phonemizer/phoneme_ids.py:150 | joining the characters gives the word back |
| PhonemeIds.WordPhonemes | espeak_phonemizer/phoneme_ids.py:143-151 | a word's phonemes joined with the phoneme separator give the word back |
| PhonemeIds.SplitLine | espeak_phonemizer/phoneme_ids.py:143-151 | splitting a line fails exactly for an empty word separator; otherwise it gives at least one word |
| PhonemeIds.SplitLineRoundTrip | espeak_phonemizer/phoneme_ids.py:143-151 | joining each word's phonemes and then the words gives the line back |
| PhonemeIds.SplitAll | espeak_phonemizer/phoneme_ids.py:143-151 | as many results as lines, and result `i` is the split of line `i` (joining it back gives the line: `SplitLineRoundTrip`) |
| PhonemeIds.StressRun | espeak_phonemizer/phoneme_ids.py:159-160 | the length of the phoneme's leading run of stress marks |
| PhonemeIds.SimplePunctuation | espeak_phonemizer/phoneme_ids.py:11 | `;`/`:` become `,`, and `?`/`!` become `.`; everything else is kept, and no `;:?!` is left |
| PhonemeIds.SimplePunctuationIdempotent | espeak_phonemizer/phoneme_ids.py:164 | folding twice is folding once |
| PhonemeIds.Canonical | espeak_phonemizer/phoneme_ids.py:157-164 | a phoneme's vocabulary form is empty exactly when nothing is left after the peeled stress; with separate stress it does not start with a mark; without either option it is the phoneme |
| PhonemeIds.VocabularyMembers | espeak_phonemizer/phoneme_ids.py:155-166 | `all_phonemes` gains exactly the non-empty canonical forms of the phonemes of every line |
| PhonemeIds.LineVocabularyMembers | espeak_phonemizer/phoneme_ids.py:155-166 | the same for one line |
| PhonemeIds.WordVocabularyMembers | espeak_phonemizer/phoneme_ids.py:156-166 | the same for one word |
| PhonemeIds.PeelStress | espeak_phonemizer/phoneme_ids.py:159-160 | the peel loop leaves the phoneme without its leading stress marks |
| PhonemeIds.CanonicalOf | espeak_phonemizer/phoneme_ids.py:157-164 | the peel and fold statements compute `Canonical` |
| PhonemeIds.WordVocabularyStep | espeak_phonemizer/phoneme_ids.py:156-166 | one more phoneme adds its canonical form, if it is not empty |
| PhonemeIds.CollectWord | espeak_phonemizer/phoneme_ids.py:156-166 | the loop over a word adds its vocabulary |
| PhonemeIds.CollectLine | espeak_phonemizer/phoneme_ids.py:155-166 | the loop over a line adds its vocabulary |
| PhonemeIds.PhonemeSymbols | espeak_phonemizer/phoneme_ids.py:191-202 | a phoneme is written as non-empty symbols (stress marks first when separate), and as none exactly when it is empty |
| PhonemeIds.WordsSymbols | espeak_phonemizer/phoneme_ids.py:204-205 | only words with symbols are kept |
| PhonemeIds.LineSymbols | espeak_phonemizer/phoneme_ids.py:184-209 | a line's words, BOS and EOS included, all non-empty |
| PhonemeIds.Lookup | espeak_phonemizer/phoneme_ids.py:195-202 | the id of each symbol |
| PhonemeIds.LookupInjective | espeak_phonemizer/phoneme_ids.py:195-202 | with dense ids, two symbol lists have the same ids exactly when they are equal |
| PhonemeIds.KnowsLineSymbols | espeak_phonemizer/phoneme_ids.py:184-209 | a map that knows a line's vocabulary has an id for each of its symbols |
| PhonemeIds.LineIds | espeak_phonemizer/phoneme_ids.py:182-209 | every lookup of a line's symbols succeeds, and the ids come word by word in the same order |
| PhonemeIds.StressIdsOf | espeak_phonemizer/phoneme_ids.py:193-196 | the loop gives the id of each leading stress mark, and what follows them |
| PhonemeIds.PhonemeIdsOf | espeak_phonemizer/phoneme_ids.py:191-202 | the ids of one phoneme are the ids of its symbols |
| PhonemeIds.WordIdsOf | espeak_phonemizer/phoneme_ids.py:189-203 | the ids of one word are the ids of its symbols |
| PhonemeIds.WordsIdsOf | espeak_phonemizer/phoneme_ids.py:188-205 | the ids of the words that have symbols, in order |
| PhonemeIds.LineIdsOf | espeak_phonemizer/phoneme_ids.py:182-209 | the ids of a line, BOS and EOS included, are `LineIds` |
| PhonemeIds.Texts | espeak_phonemizer/phoneme_ids.py:213 | `str(p_id)` for each id |
| PhonemeIds.SpacedTextFlattens | espeak_phonemizer/phoneme_ids.py:211-216 | with single spaces, a line's text is its ids one after the other |
| PhonemeIds.SpacedTextRoundTrip | espeak_phonemizer/phoneme_ids.py:211-216 | with the default separators, a line of ids reads back: its words parse to its ids |
| PhonemeIds.IdsText | espeak_phonemizer/phoneme_ids.py:211-216 | definition; no contract: the words' ids joined by the id separator, then by the word-separator text (properties: `SpacedTextFlattens`, `SpacedTextRoundTrip`) |
| PhonemeIds.OutputLine | espeak_phonemizer/phoneme_ids.py:218-228 | definition; no contract: the ids text, preceded by the line and the output separator with `--print-input` |
| PhonemeIds.StripEach | espeak_phonemizer/phoneme_ids.py:138 | each input line stripped |
| PhonemeIds.NonBlank | espeak_phonemizer/phoneme_ids.py:138-140 | the kept lines are non-empty, and no more than the input lines (exactly the non-empty ones, in order: `NonBlankKeeps`, `NonBlankAppend`) |
| PhonemeIds.NonBlankKeeps | espeak_phonemizer/phoneme_ids.py:138-140 | a line is kept exactly when it is an input line and not empty |
| PhonemeIds.NonBlankAppend | espeak_phonemizer/phoneme_ids.py:138-140 | filtering a concatenation is concatenating the filtered parts, so the order is kept |
| PhonemeIds.FinalMapKnows | espeak_phonemizer/phoneme_ids.py:126-171 | the final map has the blank's id when needed and an id for every symbol of every line |
| PhonemeIds.AllPhonemes | espeak_phonemizer/phoneme_ids.py:126-166 | definition; no contract: the map's keys, `,`/`.` with simple punctuation, and the vocabulary |
| PhonemeIds.FinalMap | espeak_phonemizer/phoneme_ids.py:126-171 | definition; no contract: the reserved symbols added, then the missing phonemes in sorted order (properties: `FinalMapKnows`, `FinalMapDense`, `FinalMapContents`, `FinalMapSortedIds`) |
| PhonemeIds.FinalMapDense | espeak_phonemizer/phoneme_ids.py:126-171 | an id file with dense ids gives a final map with dense ids |
| PhonemeIds.FinalMapContents | espeak_phonemizer/phoneme_ids.py:69-171 | the final map holds exactly the id file's phonemes (ids unchanged), the reserved symbols, `,`/`.` with simple punctuation, and the vocabulary |
| PhonemeIds.WithSortedIds | espeak_phonemizer/phoneme_ids.py:169-171 | symbols added from a strictly sorted list get increasing ids |
| PhonemeIds.FinalMapSortedIds | espeak_phonemizer/phoneme_ids.py:168-171 | phonemes that had no id before the first pass get ids in sorted order |
| PhonemeIds.LineIdsDense | espeak_phonemizer/phoneme_ids.py:182-216 | with dense ids, every printed id is in `0 … len-1`, and two symbols of a line share an id exactly when they are equal |
| PhonemeIds.OutputLines | espeak_phonemizer/phoneme_ids.py:175-228 | one printed line per kept line |
| PhonemeIds.ReadLine | espeak_phonemizer/phoneme_ids.py:134-166 | one turn of the first pass: a blank line is passed over, any other is kept, split, and its vocabulary added |
| PhonemeIds.FirstPass | espeak_phonemizer/phoneme_ids.py:132-166 | fails exactly when the word separator is empty and some line is not blank; otherwise it keeps the non-blank stripped lines, their words, and the vocabulary |
| PhonemeIds.SecondPass | espeak_phonemizer/phoneme_ids.py:175-228 | the printed lines are `OutputLines` for the final map |
| PhonemeIds.Run | espeak_phonemizer/phoneme_ids.py:69-228 | a bad id file's error, or the empty-separator error, or the printed lines and final map that `Expected` defines for the input |
| PhonemeIds.Expected | espeak_phonemizer/phoneme_ids.py:69-228 | definition; no contract: the printed lines and the final map for an input (the method `Run` is proved against it) |

## Left out

- Library loading (`ctypes.cdll.LoadLibrary`, with the `.so.1` fallback), the memory stream (`open_memstream`, `fflush`, `string_at`, `fclose`) and UTF-8 encoding and decoding: the engine is replaced by the answers it gives, and the memory strategy's trace arrives already split into lines.
- The engine's own phonemization: the answers are parameters (`EngineReplies`), so every property holds for any answers.
- `Path(voice).expanduser().is_absolute()` and `.resolve()` are a parameter `absolutePath`. It returns the resolved path for an absolute voice path and none otherwise. The file system is not modelled.
- Logging, including the stream phonemizer's warning for a refused voice; that status is therefore not part of the model.
- StreamPhonemizer.Options: `phoneme_separator` is a single character or none. A longer string would make `ord` raise `TypeError`, and that is not modelled. `word_separator` and `punctuation_separator` are strings and never `None`.
- StreamPhonemizer.Phonemizer.constructor: the breakers are a set of characters. The source accepts any collection of strings, but only one-character members can match a character of the text.
- TerminatorPhonemizer.Options: `phoneme_separator` is a single character or none, as above.
- TerminatorPhonemizer.Phonemizer.Phonemize: takes no text parameter. The text reaches only the engine, and its answers are the `clauses` of `EngineReplies`. The library path and the data path are not modelled.
- TerminatorPhonemizer.Phonemizer.MaybeInit: does not model the `AttributeError` raised when the library lacks `espeak_TextToPhonemesWithTerminator`.
- PyInts.ParseInt: accepts ASCII digits with an optional sign and surrounding whitespace. Python's `int` also accepts underscores between digits and non-ASCII decimal digits; those are not modelled.
- PyStrings.IsSpace: holds exactly for the characters `str.isspace()` accepts: U+0009–U+000D, U+001C–U+0020, U+0085, U+00A0, U+1680, U+2000–U+200A, U+2028, U+2029, U+202F, U+205F and U+3000. Line splitting (`splitlines`) of the trace is not modelled.
- PhonemeIds.Run: the `--csv` mode, `argparse`, the tty notice, reading stdin, and `print` are outside the model. The input is a sequence of lines and the output a sequence of printed lines.
- PhonemeIds.Run: `--write-phonemes` (writing the final map sorted by id) is not modelled. The final map itself is part of `Output`.
- PhonemeIds.FinalMapDense: an id file whose ids are not exactly `0 … n-1` can make two phonemes share an id. Density is proved only for dense id files, and the source does not check it.
- PhonemeIds.StripEach: every input line is stripped up front, where the source strips it inside the loop. The result is the same.
- The `__main__` command line and `phonemizer_abc` are not part of this model.
