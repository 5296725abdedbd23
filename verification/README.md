# oxpinyin: verified models of its search, parser and audit tooling

oxpinyin is a Rust port of the libpinyin input engine. It comes with a large body of tooling that compares the
port with the original library: source scanners, binary log readers, a differential battery, a performance
driver, a fault injector and keystroke generators. This project models the parts of both whose correctness is
not visible in any single function body and proves what they promise, for every input and every run.

`dafny verify dfyconfig.toml` verifies the whole project, in about two minutes.

## How the project is laid out

| Component of the system | Modules |
|---|---|
| k-best path search of the decoder | `SegmentGraph`, `IncomingIndex`, `KBest`, with `Sorting` and `Sequences` |
| the full-pinyin parser, groups and whole inputs | `ParserPaths`, `ParserCounts`, `ParserInput` |
| GLib call-site audit | `MacroUsers`, `CallText`, `TemplateKey`, `LinkViews`, `SiteRows`, with `Lexicographic` |
| user phrase log and its readers | `Bytes`, `Chunk`, `PhraseLog`, `UnigramFields`, `LogWalkers`, `Pronunciations`, `WalkersAgree` |
| stored bigram values | `SingleGram` |
| GLib's one- to six-byte character forms | `GlibUtf8` |
| differential battery of axis C | `Json`, `AxisC`, `AxisCounts` |
| performance driver | `Words`, `PerfRun` |
| allocation-failure audit | `AllocFailure` |
| CP26 keyboard, both directions | `Cp26Taps`, `Cp26`, `Cp26Probe`, `Cp26Pinned`, `Cp26Lost` |
| integer spelling keys | `SpellingKeys` |

Loops of the source are Dafny loops proved equal to a specification function (`ensures r == Spec(...)`); objects that
the source updates in place are classes (`LinkViews.LinkView`, `UnigramFields.Cursor`, `PerfRun.Counter`, `PerfRun.Harness`,
`AllocFailure.Interposer`) or arrays (`IncomingIndex.Build`, `Cp26.DeriveSyllable`, `SpellingKeys.SpellingKey`). The promise
of each component is then a theorem about that specification function, stated against a definition that does not mention it:
walks and their costs, covers of a group, chains of mentions, a call grammar, records and their encodings, words and their order.

## What turned out to be false, and exactly when

* **Parser counts.** The parser predicts how many fallback paths a group has and asserts that the enumeration finds as many.
  The prediction tests partial tails under the default options, the enumeration under the caller's. `PredictionIsExactIff` shows
  the two agree exactly when no reachable tail is both complete under the options and partial under the defaults, and `AlwaysAgreeIff` that
  options are safe on every group and target exactly when no text is both. Such a text is always reached: followed by a letter that no syllable
  goes on with, it is a group on which the assertion fails (`EveryClashIsReached`, `NoGroupMismatchesIff`).
  `SuavMismatches` is the real group `suav` with `PINYIN_AMB_S_SH`, where three paths are predicted, two are found, and the assertion fails.
* **Performance fingerprint.** A unit XORs its repeats. `FingerprintSeesIffOdd` shows that the printed fingerprint tells an engine which answers
  every repeat alike from one that differs in one cycle exactly when the number of repeats is odd; with an even number it
  depends on the number of cycles alone (`EvenRepeatsAreBlind`).
* **CP26 keystrokes.** `ReadsBackIff` gives the exact condition under which the engine's probe reads a derived syllable back, and
  `LostExactly` lists all that the pinned tables lose: the finals ㄝ and ㄥ on their own (their keys read as the initials ㄖ and ㄙ), the same
  finals right after those initials, ㄡ after ㄩ, nothing at all, a tone where the parser uses none, and, where it uses tones, the
  initials ㄎ, ㄍ, ㄐ and ㄗ on their own without one. `SengIsLost` is the concrete ㄙㄥ: both symbols sit on `n`, and the two taps read
  as ㄙ alone. Where tones are used, `CP26_CORPUS` holds of these the empty entry alone.
* **Spelling search.** The generator of syllable keys skips the first content row, the search by integer key does not: they agree on
  every spelling but that row's own (`SearchesAgreeIff`). That row has the empty spelling: the search by key answers it, and no spelling the
  generator looks up is empty, so the difference never meets it.

Two notes on promises that hold. The hardware count needs the reset in the loop: `CountedOnce` assumes the counter's control calls succeed, whose
results the source ignores, and `FailedResetCountsTwice` shows what one failed reset does. And as to the tie order of the search, rule 3 of
`docs/findings/kbest-search.md` prefers "the better-ranked prefix within that state". Read as a comparison inside one source state, with prefixes of
different states falling under rules 2 and 4 again, the written rules are the code's order (`RulesAreTheOrder`).

## Model

| member | source | states |
|---|---|---|
| `IncomingIndex.Build` | crates/oxpinyin-core/src/kbest.rs:263-288 | The counting sort puts into each node's range exactly the ids of the edges entering it, ascending, for every graph. |
| `IncomingIndex.StatesAt` | crates/oxpinyin-core/src/kbest.rs:291-306 | Reading the range of a node off the index gives exactly the states current at that node, ascending, nodes out of range included. |
| `KBest.Reconstruct` | crates/oxpinyin-core/src/kbest.rs:309-326 | Following the backpointers of an arena entry yields the path the entry stands for, in input order, with its cost. |
| `KBest.RankNode` | crates/oxpinyin-core/src/kbest.rs:193-199 | Sorting and cutting the buckets of one node leaves the ranked paths of its states and changes no other bucket. |
| `KBest.ExtendAlong` | crates/oxpinyin-core/src/kbest.rs:214-232 | One entry taken along one edge adds exactly the extended path to the edge's bucket, nothing past the target, and fails only when the arena is full. |
| `KBest.ExtendNode` | crates/oxpinyin-core/src/kbest.rs:205-235 | Extending every surviving entry of a node along every edge fills the later buckets with all extensions in generation order. |
| `KBest.Finalists` | crates/oxpinyin-core/src/kbest.rs:240-243 | The finalists are the ranked paths of the target's states, in ascending edge order. |
| `KBest.SweepTo` | crates/oxpinyin-core/src/kbest.rs:176-236 | The sweep ends with every bucket ranked, or reports too many entries exactly when the search generates more than 2^32. |
| `KBest.KBestTo` | crates/oxpinyin-core/src/kbest.rs:163-251 | The result is the first k of the complete ranking of all paths, and each error is returned exactly under its own condition. |
| `KBest.KBestAreTheBest` | docs/findings/kbest-search.md:63-80 | The result holds k walks or all there are (a walk is left out only of a result of k), all different, each a real walk with its true cost, in the decoder's order, and every walk left out comes after every walk returned. In range each cost is the plain sum of the steps, and no walk left out has a smaller sum. |
| `SegmentGraph.RankedSound` | crates/oxpinyin-core/src/kbest.rs:183-236 | Whatever is ranked in a state is a walk from the start that arrives by that state at its true saturating cost. |
| `SegmentGraph.CostIsPlainSum` | crates/oxpinyin-core/src/kbest.rs:222-230 | A walk all of whose partial sums lie within the cost bounds costs the plain sum of its steps. |
| `SegmentGraph.LastStepCosts` | crates/oxpinyin-core/src/kbest.rs:222-230 | The last step of a walk is added to what is before it, and a step past either bound gives that bound. |
| `SegmentGraph.RankedComplete` | crates/oxpinyin-core/src/kbest.rs:183-236 | Without a beam every walk is ranked in its state, with its cost. |
| `SegmentGraph.BeamIsExact` | docs/findings/kbest-search.md:40-46 | Cutting every state to k while sweeping keeps exactly the first k of the uncut ranking, although costs look at the previous edge. |
| `SegmentGraph.BeamFinalists` | crates/oxpinyin-core/src/kbest.rs:240-245 | The first k of the beam's finalists are the first k of all finalists. |
| `SegmentGraph.AllPathsExact` | docs/findings/kbest-search.md:63-80 | The complete ranking lists exactly the walks to the target, none twice, in the order by cost and then by generation. |
| `SegmentGraph.RulesAreTheOrder` | docs/findings/kbest-search.md:63-76 | On walks to one node the code's generation order is the written tie rules: earlier start of the last edge, better prefix within one state, smaller edge id. |
| `SegmentGraph.OrderIsTotal` | docs/findings/kbest-search.md:63-65 | Of two different walks to one node one is always better. |
| `ParserPaths.Enumerate` | crates/oxpinyin-core/src/parser.rs:292-347 | The depth-first walk with an explicit stack ends and returns the recursive enumeration, longest syllable first, in order. |
| `ParserPaths.PathsAreCovers` | crates/oxpinyin-core/src/parser.rs:396-465 | The enumerated paths are exactly the covers of the bytes by adjacent syllables, a partial one only at the end. |
| `ParserPaths.CoversAreSpans` | crates/oxpinyin-core/src/parser.rs:396-465 | Segment by segment: a cover starts where the one before it ends, takes at most six bytes, spells what the lookup of its bytes answers, and is partial only as the last, at the target, where no complete syllable stands. |
| `ParserPaths.PathsInOrder` | docs/findings/parser-path-set.md:16-25 | The enumeration is in greedy longest-first order: where two paths part, the earlier one takes the longer segment. |
| `ParserPaths.EachCoverOnce` | docs/findings/parser-path-set.md:42-60 | The enumeration lists every cover, in that order, and none twice, so the list has as many entries as there are covers and removing duplicates would remove nothing. |
| `ParserCounts.CountComplete` | crates/oxpinyin-core/src/parser.rs:277-290 | The backward table counts the enumerated complete paths, saturating just above the limit. |
| `ParserCounts.CountFallback` | crates/oxpinyin-core/src/parser.rs:371-394 | The forward table counts the complete covers of the target plus the covers a default partial tail finishes, saturating just above the limit. |
| `ParserCounts.WaysAreCovers` | crates/oxpinyin-core/src/parser.rs:371-394 | The forward count of a position is the number of paths enumerated to it, which is the number of covers. |
| `ParserCounts.EnumeratedCount` | crates/oxpinyin-core/src/parser.rs:396-465 | The number of fallback covers is the number of complete covers plus the number of covers finished by a partial syllable that is not complete under the options. |
| `ParserCounts.PredictionIsExactIff` | crates/oxpinyin-core/src/parser.rs:459-463 | The predicted count is never below the enumerated one, and equal exactly when no reachable tail is complete under the options and partial under the defaults. |
| `ParserCounts.DefaultsNeverClash` | crates/oxpinyin-core/src/parser.rs:521-525 | Where partial excludes complete, as under the defaults, the predicted count, the enumerated count and the number of covers are equal. |
| `ParserCounts.AlwaysAgreeIff` | crates/oxpinyin-core/src/parser.rs:459-463 | For given lookups the asserted equality holds on every problem exactly when no non-empty text is both complete and partial. |
| `ParserCounts.EveryClashIsReached` | crates/oxpinyin-core/src/parser.rs:247-275 | If a text is both complete and partial, the text followed by a letter that no syllable goes on with is a group whose only outcome is the failed assertion. |
| `ParserCounts.NoGroupMismatchesIff` | crates/oxpinyin-core/src/parser.rs:247-275 | Where such a letter exists for every text that is both, no group fails the assertion exactly when no non-empty text is both. |
| `ParserCounts.SuavMismatches` | crates/oxpinyin-core/src/syllables.rs:102-102 | For `suav` under the option that reads s as sh byte 3 is the only target the parser may choose, the prediction there is three, the enumeration two, and the only outcome is the failed assertion. |
| `ParserCounts.MaximalFallbackEnd` | crates/oxpinyin-core/src/parser.rs:349-369 | The answer is the farthest byte at which a complete or partial syllable from a reachable position ends. |
| `ParserCounts.ParseGroup` | crates/oxpinyin-core/src/parser.rs:247-275 | A group yields all its complete paths, or an error above the limit; with none it yields all paths to the farthest fallback end, the limit error, or the count mismatch, each exactly under its condition. |
| `ParserInput.CombinePaths` | crates/oxpinyin-core/src/parser.rs:467-488 | The nested loops return every left path joined with every right path, left by left, or nothing when the product is over the limit. |
| `ParserInput.ProductGrows` | docs/findings/parser-path-set.md:58-64 | Every group that is joined has a path, so products only grow: the limits on the way are one limit on the final product. |
| `ParserInput.ParseInput` | crates/oxpinyin-core/src/parser.rs:178-245 | The loop over groups and apostrophes returns the product of the planned groups and the remainder, the limit error, or the failed assertion, each exactly under its condition. |
| `ParserInput.ProductIsExact` | docs/findings/parser-path-set.md:35-39 | The joined paths are exactly those that cover each group in turn, in the left-to-right product order, which is again greedy longest first. |
| `ParserInput.ParsedInput` | docs/findings/parser-path-set.md:35-64 | An answered parse holds exactly the paths over groups that lie in the input one after another with apostrophes alone between them, in order, none twice, one to 4,096 of them; its remainder starts right after a consumed letter, so an apostrophe is consumed only with something after it. |
| `ParserInput.PlannedIsMaximal` | crates/oxpinyin-core/src/parser.rs:188-243 | The parse goes on as long as it can: with no group, no letters follow the leading apostrophes, or they are answered with trouble or consume nothing; after the last group, it is a fallback, or no apostrophe with letters follows, or those are answered with trouble or consume nothing. |
| `ParserInput.AnswerIsDetermined` | crates/oxpinyin-core/src/parser.rs:178-245 | Groups that lie in the input and are maximal, with the trouble that stops them, are the plan: nothing else is. |
| `ParserInput.OutcomeFollows` | crates/oxpinyin-core/src/parser.rs:178-245 | From those groups and the list of paths that cover them in order: the limit error, the failed assertion and the parsed answer, each exactly under its condition. |
| `MacroUsers.SpreadToken` | tools/audit/glib_call_sites.py:613-616 | Spreading to the macros of one name keeps every user justified, and changes the table only by shrinking the missing pairs. |
| `MacroUsers.Spread` | tools/audit/glib_call_sites.py:608-616 | The loop ends, and the users of each macro are exactly the direct users of every macro from which a chain of body mentions leads to it. |
| `MacroUsers.LeastClosed` | tools/audit/glib_call_sites.py:608-616 | The result is closed under mentions, above the direct users, and below every other such assignment. |
| `MacroUsers.TargetsAreNamed` | tools/audit/glib_call_sites.py:607-616 | A use of a name reaches every definition of the name, wherever it stands among them. |
| `MacroUsers.OrderIrrelevant` | tools/audit/glib_call_sites.py:600-616 | Two orders of definitions, tokens and names with the same mentions give the same users. |
| `CallText.Scan` | tools/audit/glib_call_sites.py:380-406 | The loop over depth and quotes returns the text up to where the recursive scan ends. |
| `CallText.CallIsExact` | tools/audit/glib_call_sites.py:380-406 | On every call the grammar spells, wherever it stands and whatever follows, the scan stops right after its closing parenthesis; parentheses, quotes and semicolons in literals never end it. |
| `CallText.ScanIsTheGrammar` | tools/audit/glib_call_sites.py:380-406 | After any name and open parenthesis the scan returns a call of the grammar if the source holds one there, and otherwise runs to the end of the source. |
| `TemplateKey.StripTemplateArguments` | tools/audit/glib_call_sites.py:233-242 | The bracket loop keeps what the recursive bracket rule keeps. |
| `TemplateKey.KeepsVisible` | tools/audit/glib_call_sites.py:227-242 | Of text with balanced angle groups the loop keeps exactly the characters outside all groups. |
| `TemplateKey.FindOpen` | tools/audit/glib_call_sites.py:254-263 | The backward loop finds the parenthesis at which the depth returns to zero, or none. |
| `TemplateKey.OpenFound` | tools/audit/glib_call_sites.py:251-265 | For a name, a parenthesised list and a tail without closing parentheses, the match found is the list's own open parenthesis. |
| `TemplateKey.TrimIs` | tools/audit/glib_call_sites.py:266-278 | Stripping takes white space from both ends, all of it, and white space is these 29 code points. |
| `TemplateKey.Arity` | tools/audit/glib_call_sites.py:266-277 | The parameter loop counts one more than the top-level commas of a parameter text that, stripped of white space, is neither empty nor void. |
| `TemplateKey.JoinCounts` | tools/audit/glib_call_sites.py:269-277 | n parameters, however many commas their own parentheses hold, have n - 1 top-level commas. |
| `TemplateKey.Compute` | tools/audit/glib_call_sites.py:245-279 | The steps together return the specified key, with none for special symbols and for text without a parameter list. |
| `TemplateKey.NoKeyIff` | tools/audit/glib_call_sites.py:245-265 | A symbol has no key exactly when it starts with one of the six special beginnings, shows no closing parenthesis outside its angle groups, or closes one that was not opened. |
| `TemplateKey.ArgumentsDoNotMatter` | tools/audit/glib_call_sites.py:227-279 | Two names that differ only inside balanced angle groups have the same key. |
| `TemplateKey.KeyOfFunction` | tools/audit/glib_call_sites.py:245-279 | The key of a function symbol is the name in the text before its parameter list and its number of top-level parameters. |
| `TemplateKey.NameIsLastWord` | tools/audit/glib_call_sites.py:278-278 | The name is the last blank-separated word of that text with exactly its anonymous namespaces removed, whatever return type stands before it and whatever white space follows. |
| `TemplateKey.KeyOfNamedFunction` | tools/audit/glib_call_sites.py:245-279 | Return type, word, parameters and qualifiers, with any template arguments, give the key of the word and the number of parameters. |
| `SiteRows.MergeSites` | tools/audit/glib_call_sites.py:773-787 | One backend's loop folds its sites into the rows as specified, sites without a function included. |
| `SiteRows.MergeMeans` | tools/audit/glib_call_sites.py:773-787 | After any sequence of backends each row holds exactly the texts, functions, buckets and placement that the sites with its key contribute. |
| `SiteRows.OrderOfSitesIrrelevant` | tools/audit/glib_call_sites.py:773-787 | The order of backends and sites changes no row, its first-wins library excepted. |
| `LinkViews.LinkView.Add` | tools/audit/glib_call_sites.py:288-296 | One linker map adds its pairs, its symbols and the template keys of its demangled symbols to a view, in place. |
| `LinkViews.FoundIff` | tools/audit/glib_call_sites.py:306-311 | A function is found in a view exactly when one of the collected maps keeps it: a template by name and number of parameters, a function of one object by that object and one of its symbols, any other by one of its symbols. |
| `LinkViews.KeyTextIsInjective` | tools/audit/glib_call_sites.py:278-279 | The text of a template key determines the name and the number of parameters, whatever slashes the name holds. |
| `SiteRows.SiteReadBack` | tools/audit/glib_call_sites.py:803-809 | Splitting the joined site at its last colon returns the row's file and line. |
| `SiteRows.KeysAreInjective` | tools/audit/glib_call_sites.py:807-809 | Two rows that tie in the sort are the same row. |
| `SiteRows.TableIsCanonical` | tools/audit/glib_call_sites.py:790-810 | The sorted table is the same, libraries aside, for every order of backends, sites and rows. |
| `SiteRows.BuiltIsListed` | tools/audit/glib_call_sites.py:790-810 | Whenever a table is built, it lists each row once, ascending by family, file, line as a number and name; each line shows its row's own columns, its least text included. |
| `SiteRows.FacadeMeans` | tools/audit/glib_call_sites.py:329-336 | A facade is both exactly when pinyin and zhuyin keep the site, otherwise the one of the two that does, tools when only tools of the three does, and none exactly when none does. |
| `SiteRows.BuiltIff` | tools/audit/glib_call_sites.py:790-801 | A table is built exactly when the sites' names and the family table's names are the same; table functions without a site are reported first and all of them, and an unknown name is one a site has. |
| `SiteRows.BuildIsCanonical` | tools/audit/glib_call_sites.py:790-810 | For every order of backends, sites and rows the builder fails alike, up to which unknown name it meets first, or builds the same lines, libraries aside. |
| `Chunk.WriterChecksum` | tools/bisection/contract_case_helpers.py:372-377 | The writer's two loops compute the XOR of the aligned words and of the tail bytes, each shifted to its place. |
| `Chunk.ReaderChecksum` | tools/bisection/compare-nbest-training-state.py:43-46 | The reader's loop computes the XOR of the words of the zero-padded payload. |
| `Chunk.ChecksumsAgree` | tools/bisection/contract_case_helpers.py:369-379 | The two checksums are equal for payloads of every length. |
| `Chunk.MakeChunk` | tools/bisection/contract_case_helpers.py:369-379 | The image is the length word, the checksum both sides compute, and the payload; a length over 32 bits raises. |
| `Chunk.CheckFrame` | tools/bisection/compare-nbest-training-state.py:38-48 | A frame is refused for its length or its checksum, in that order, and otherwise yields its payload. |
| `Chunk.ChunkRoundTrip` | tools/bisection/contract_case_helpers.py:369-379 | Every image that can be written passes the frame test and returns its payload. |
| `Chunk.AcceptedIsWritten` | tools/bisection/compare-nbest-training-state.py:38-48 | A file yields a payload exactly when it is the image written for it, is too short exactly below eight bytes, and has a bad length exactly when its first word is not the number of bytes after the second. |
| `Chunk.OneWordCorruptionRejected` | tools/bisection/compare-nbest-training-state.py:43-48 | A change confined to one aligned payload word is always refused as a bad checksum. |
| `PhraseLog.LayoutOf` | tools/bisection/contract_case_helpers.py:267-269 | The bytes of each kind of record: kind, token, sizes and items in this order, numbers with their lowest byte first. |
| `PhraseLog.DecodeInverts` | tools/bisection/contract_case_helpers.py:267-269 | Decoding an encoded record returns it and stops at its end, whatever bytes follow. |
| `PhraseLog.DecodeAllInverts` | tools/bisection/contract_case_helpers.py:267-269 | A log of records decodes to those records. |
| `PhraseLog.DecodeAllIsEncode` | tools/bisection/contract_case_helpers.py:267-269 | Whatever decodes as a log is the encoding of the decoded records. |
| `UnigramFields.Cursor.Take` | tools/bisection/compare-nbest-training-state.py:51-59 | Taking bytes returns the next ones and advances past them, or takes nothing when they pass the end. |
| `UnigramFields.TokenIsPublic` | crates/oxpinyin-capi/novel_types.h:41-46 | The normalised token is the public packing: it keeps the slot and its library reads back, for every library a log can name. |
| `UnigramFields.ReadField` | tools/bisection/compare-nbest-training-state.py:65-92 | One turn of the record loop yields the specified field and advances past the record, or raises the specified error. |
| `UnigramFields.FieldMatchesDecode` | tools/bisection/compare-nbest-training-state.py:65-92 | The reader accepts the front of a payload exactly when the reference decoder does and the record is readable, and takes exactly that record. |
| `UnigramFields.AcceptedIff` | tools/bisection/compare-nbest-training-state.py:65-92 | A payload is accepted exactly when it is the encoding of readable records; its fields are theirs, one each. |
| `UnigramFields.Extract` | tools/bisection/compare-nbest-training-state.py:24-95 | The whole reader computes the specified state from a file, errors included. |
| `UnigramFields.StateReadsBack` | tools/bisection/compare-nbest-training-state.py:93-95 | The state has twelve bytes per record, and cutting it in twelves returns the fields, in ascending byte order. |
| `UnigramFields.StateIsCanonical` | tools/bisection/compare-nbest-training-state.py:93-95 | Two accepted logs have equal states exactly when they hold the same fields equally often, in any order. |
| `LogWalkers.LogWalk` | tools/bisection/contract_case_helpers.py:278-304 | The walking loop returns the specified walk of any bytes, truncated and unknown records included. |
| `LogWalkers.WalkStep` | tools/bisection/contract_case_helpers.py:282-303 | On one encoded record the walk advances by exactly its length and counts it under its kind. |
| `LogWalkers.LogWalkIsExact` | tools/bisection/contract_case_helpers.py:265-304 | On every framed log of records the walk counts each kind and reports the first header's totals. |
| `LogWalkers.RecordsThenTail` | tools/bisection/contract_case_helpers.py:282-304 | Whatever follows whole records is walked with what they have been counted as. |
| `LogWalkers.TailIsWalked` | tools/bisection/contract_case_helpers.py:282-304 | Fewer than ten bytes, an unknown kind or totals cut short end the walk uncounted; another record cut short is counted, and is the last. |
| `Pronunciations.ReadItem` | tools/bisection/compare-nbest-training-state.py:125-137 | The reading loop of one item yields its rows, or raises for an item without its two leading bytes or readings that do not end at its end. |
| `Pronunciations.PronunciationFields` | tools/bisection/compare-nbest-training-state.py:98-138 | The record loop yields the specified rows of any bytes, or the specified error of the first record that has one. |
| `Pronunciations.EntryRead` | tools/bisection/compare-nbest-training-state.py:111-137 | The reader passes one encoded record of phrases whole, with one row per stored reading. |
| `Pronunciations.PronunciationsAreExact` | tools/bisection/compare-nbest-training-state.py:98-138 | A log of phrases yields one row per stored reading, in record order. |
| `WalkersAgree.ReadersAgree` | tools/bisection/compare-nbest-training-state.py:24-138 | On every framed log of entries the three readers visit the same records: the unigram state is the records' own fields, sorted and joined, twelve bytes each, every kind is counted, and every reading is listed. |
| `SingleGram.GramRoundTrip` | tools/bisection/contract_case_helpers.py:519-541 | Reading a stored value returns its total and its items for every list, whatever partial item follows. |
| `SingleGram.PairsWrite` | tools/bisection/contract_case_helpers.py:530-541 | A value of a whole number of items is the encoding of what is read from it. |
| `SingleGram.CheckItems` | tools/bdb/hash-walk.c:40-48 | The item loop returns the counts' sum modulo 2^32 and the number of tokens that do not ascend. |
| `SingleGram.CheckRecord` | tools/bdb/hash-walk.c:33-50 | One record moves the counters as specified, keys and values of wrong size included. |
| `SingleGram.HashWalk` | tools/bdb/hash-walk.c:32-87 | The verdict is ok exactly when the cursor did not fail and all violation counters of the whole walk are zero. |
| `SingleGram.CountersMean` | tools/bdb/hash-walk.c:33-50 | After any number of records the counters hold how many had a key of another size, a four-byte key and a value of a wrong size, and both right but another total than their wrapped sum. |
| `SingleGram.CleanIff` | tools/bdb/hash-walk.c:33-50 | One record leaves clean counters clean exactly when its key has four bytes and its value encodes ascending tokens under their wrapped sum. |
| `SingleGram.VerdictIff` | tools/bdb/hash-walk.c:81-87 | All counters are zero exactly when every record is sound; the zero-item counter never exceeds the mismatch counter. |
| `GlibUtf8.EncodeOne` | tools/bisection/contract_case_helpers.py:707-715 | The digit loop produces the specified form of a word. |
| `GlibUtf8.Encode` | tools/bisection/contract_case_helpers.py:703-716 | The word loop concatenates the forms of its words. |
| `GlibUtf8.FormsAre` | tools/bisection/contract_case_helpers.py:707-715 | The six forms, byte by byte, each exactly for its range of words. |
| `GlibUtf8.DecodeInverts` | tools/bisection/contract_case_helpers.py:703-716 | Decoding the encoding of any words below 2^32 returns them. |
| `GlibUtf8.PrefixFree` | tools/bisection/contract_case_helpers.py:703-716 | No word's form is a prefix of another's. |
| `GlibUtf8.ShortestForm` | tools/bisection/contract_case_helpers.py:707-710 | No shorter form has room for the word. |
| `GlibUtf8.EncodingKeepsOrder` | tools/bisection/contract_case_helpers.py:703-716 | Encodings compare byte by byte as the word sequences compare word by word. |
| `Json.SameIsPlain` | tools/bisection/contract_axis_c.py:161-166 | Two values compare equal exactly when they are the same value once every truth value in them is replaced by its number. |
| `Json.SameIsEquality` | tools/bisection/contract_axis_c.py:161-166 | On values without truth values the comparison is equality of values. |
| `Json.DifferenceIsFirst` | tools/bisection/contract_axis_c.py:123-140 | On unequal trees the reported path leads to values that differ, every earlier sibling along it agrees, and no child at its end differs; missing entries read as null. |
| `AxisC.AxisCVerdict` | tools/bisection/contract_axis_c.py:148-168 | The loop returns the specified verdict with the differing rows, or the case itself where only the envelopes differ. |
| `AxisC.MatchMeans` | tools/bisection/contract_axis_c.py:148-168 | A case matches exactly when both envelopes exit with zero, have a result and are the same value up to truth values being numbers, and every row of the pin is so on both sides, or an abort that a covered case reproduces. |
| `AxisC.RowsAre` | tools/bisection/contract_axis_c.py:156-158 | The rows of an envelope are the dictionary of observations in its result. |
| `AxisC.SelfComparison` | tools/bisection/contract_axis_c.py:111-168 | A side compared with itself matches exactly when it is live and every row is live or a covered abort; two identical failures never match. |
| `AxisC.TallyRows` | tools/bisection/contract_axis_c.py:235-246 | The inline row loop moves the counters as specified and counts as many differing rows as the verdict function finds. |
| `AxisC.Run` | tools/bisection/contract_axis_c.py:214-267 | The whole loop ends in the specified battery. |
| `AxisC.CaseKeeps` | tools/bisection/contract_axis_c.py:229-267 | The inline decision records the verdict of the verdict function and keeps every count balanced. |
| `AxisC.RunKeeps` | tools/bisection/contract_axis_c.py:214-267 | Over every run: match, reproduced abort and differ add up to the observations, case verdicts and diagnostics to the cases, the verdict table is the verdict function's, and the difference table is empty exactly when every case matches. |
| `AxisCounts.RunMeans` | tools/bisection/contract_axis_c.py:214-267 | Over every run, counter by counter from the cases alone: observations that match, abort alike and differ, and diagnostics alike and not; for every signature how often it was recorded, and the first case and row it was recorded for. |
| `PerfRun.RunCycle` | tools/bisection/bisect.c:709-738 | A cycle's checksum is the rotating fold over the words of its steps up to the first input that is too long or cannot be reset. |
| `PerfRun.CycleStops` | tools/bisection/bisect.c:709-724 | A cycle takes its inputs whole, up to the first that has more than 255 prefixes or cannot be reset. |
| `PerfRun.RunUnit` | tools/bisection/bisect.c:746-753 | A unit's checksum is the XOR of its cycles'. |
| `PerfRun.MixSees` | tools/bisection/bisect.c:731-734 | Both mixing steps are injective in the XOR of what they hold and what they are given. |
| `PerfRun.BareWords` | tools/bisection/bisect.c:731-733 | A step that consumes nothing and counts nothing feeds the constant of its guess, and one without a count the XOR of that and the third constant. |
| `PerfRun.OneOfEach` | tools/bisection/bisect.c:720-735 | A cycle of one step rotates by seven bits, and a run of one cycle multiplies by the prime, from the same start. |
| `PerfRun.CollisionNeedsCancelling` | tools/bisection/bisect.c:1126-1130 | Two folds that agree after their last difference collide exactly when what led up to it cancels it. |
| `PerfRun.OneChangeIsSeen` | tools/bisection/bisect.c:1126-1130 | Two sequences of words that differ in one place have different checksums, in a cycle and in the workload. |
| `PerfRun.OneAnswerIsSeen` | tools/bisection/bisect.c:726-733 | Two steps that differ in one engine answer alone feed different words. |
| `PerfRun.TradedAnswersCollide` | tools/bisection/bisect.c:731-733 | Bytes consumed and candidate count may trade places unseen: the one-answer condition is needed. |
| `PerfRun.UnitSeesAlikePassesIffOdd` | tools/bisection/bisect.c:746-753 | Repeats of one cycle are told from repeats of another exactly when their number is odd. |
| `PerfRun.EvenRepeatsAreBlind` | tools/bisection/bisect.c:746-753 | With even repeats of cycles that answer alike, two runs of equally many cycles have the same fingerprint. |
| `PerfRun.FingerprintSeesIffOdd` | tools/bisection/bisect.c:746-753 | Two runs of alike passes that differ in one cycle's checksum print different fingerprints exactly when the number of repeats is odd. |
| `PerfRun.Harness.Run` | tools/bisection/bisect.c:1111-1144 | The fingerprint is the fold over the unit checksums whatever the sink held; the counter and its totals follow the metered cycles, failing control calls included, and where those succeed the instructions are the sum modulo 2^64 over exactly the steady cycles whose read succeeded. |
| `PerfRun.CountedOnce` | tools/bisection/bisect.c:1131-1144 | With working control calls each steady cycle whose read succeeded is counted once, the first cycle never, after any number of cycles. |
| `PerfRun.FailedResetCountsTwice` | tools/bisection/bisect.c:1139-1143 | Without the reset the next read returns the earlier cycle again. |
| `PerfRun.OneCycleIsSeen` | tools/bisection/bisect.c:1111-1130 | Two runs whose units differ in one cycle print different fingerprints. |
| `PerfRun.OneStepIsSeen` | tools/bisection/bisect.c:709-753 | Two runs that differ in one step word of one pass of one cycle print different fingerprints. |
| `AllocFailure.Interposer.Allocate` | tools/abi/alloc-failure.cc:55-83 | A call and all allocations its caller lookup makes re-entrantly leave the state of the call alone: nested calls are neither counted nor failed. |
| `AllocFailure.FailsExactly` | tools/abi/alloc-failure.cc:55-83 | Over any sequence of calls and messages a call fails exactly when it is the chosen matching call since arming. |
| `AllocFailure.FailsAtMostOnce` | tools/abi/alloc-failure.cc:55-83 | One arming fails at most one call, and none after it. |
| `AllocFailure.Interposer.Child` | tools/abi/alloc-failure.cc:182-194 | The markers of a child are those of its setup, of the armed call, and R if the call returns. |
| `AllocFailure.AcceptedIff` | tools/abi/alloc-failure.cc:217-232 | The parent accepts exactly when the build injects, the call never returned, the setup logged nothing fatal, the call made enough allocations of the operation's own kind and caller before its one fatal message (for the formatted renderer, with none), and the child died as that operation must. |
| `AllocFailure.AcceptedRun` | tools/abi/alloc-failure.cc:217-232 | In every accepted run, of every operation, exactly one call fails: of the operation's own kind and caller, after as many earlier ones as the operation says; its one fatal message follows it, and the formatted renderer has none. |
| `Cp26Taps.KeyTaps` | tools/bisection/chewing-diff.c:895-916 | The lookup loop returns the key of the first row with the symbol and its place in the run of equal keys, or none. |
| `Cp26Taps.FoundDecodes` | tools/bisection/chewing-diff.c:584-586 | With equal keys adjacent, the key and taps found decode by the repeat-count law to the symbol asked for, and something is found exactly when a row has the symbol. |
| `Cp26Taps.DecodedIsFound` | tools/bisection/chewing-diff.c:892-916 | With distinct symbols, looking up what a key and taps decode to returns that key and those taps. |
| `Cp26Taps.SplitRecoversIff` | tools/bisection/chewing-diff.c:886-890 | Splitting keystrokes into maximal runs returns the pieces exactly when neighbouring pieces use different keys. |
| `Cp26.EmitTaps` | tools/bisection/chewing-diff.c:887-890 | The taps are appended to the buffer and nothing else in it changes. |
| `Cp26.EmitRest` | tools/bisection/chewing-diff.c:949-1011 | The symbols after the initial are written as their pieces, or the specified error ends the derivation. |
| `Cp26.DeriveSyllable` | tools/bisection/chewing-diff.c:923-1016 | The buffer holds the specified keystrokes, at most six of them, so that they fit the sixteen-byte buffer with their terminator; errors are the specified ones. |
| `Cp26Probe.CycledIsDecode` | crates/oxpinyin-core/src/scheme.rs:1546-1557 | For keys of at most two rows the engine's choice between two rows is the repeat-count law. |
| `Cp26Probe.RestReads` | crates/oxpinyin-core/src/scheme.rs:1559-1607 | The middle and final probes read derived pieces back exactly when their keys differ. |
| `Cp26Probe.ReadsBackIff` | crates/oxpinyin-core/src/scheme.rs:1514-1612 | The engine's probe, with or without tones, returns the derived syllable's initial, middle, final and tone exactly when pieces exist, neighbours differ, no initial is made up, and the tone is where the probe looks for it. |
| `Cp26Probe.ClearSyllableParses` | crates/oxpinyin-core/src/scheme.rs:1514-1616 | For any index, parsing the keystrokes of a clear syllable looks up exactly the syllable's own symbols and keeps its tone. |
| `Cp26Pinned.PinnedIsWellFormed` | tools/bisection/chewing-diff.c:526-578 | The pinned tables meet the conditions of the round trip. |
| `Cp26Pinned.SengIsLost` | tools/bisection/chewing-diff.c:526-578 | On the pinned tables ㄙㄥ with any tone or none derives keystrokes that do not read back. |
| `Cp26Lost.LostExactly` | tools/bisection/chewing-diff.c:526-578 | Of all syllables the pinned tables derive, with or without tones, exactly the listed ones do not read back. |
| `SpellingKeys.SpellingKey` | crates/oxpinyin-chewing/build.rs:49-51 | Filling the padded buffer and reading it big-endian gives the key of the spelling. |
| `SpellingKeys.KeysEmbedSpellings` | crates/oxpinyin-chewing/build.rs:31-34 | For spellings of at most eight bytes without NUL the integer order is the byte order, integer equality is spelling equality, and keys fit 64 bits. |
| `SpellingKeys.MakeKeys` | crates/oxpinyin-chewing/build.rs:41-62 | The loop returns the keys of the table or the first refused row. |
| `SpellingKeys.AcceptedIff` | crates/oxpinyin-chewing/build.rs:41-56 | The build accepts a table exactly when all spellings fit and every two rows are strictly increasing in byte order. |
| `SpellingKeys.KeySearchIsExact` | crates/oxpinyin-chewing/src/chewing_key.rs:117-129 | In an accepted table a search by key finds exactly the row with the spelling, and nothing for spellings that have no key. |
| `SpellingKeys.SearchesAgreeIff` | crates/oxpinyin-core/build.rs:98-103 | The first match by spelling past the first row agrees with the search by key exactly when the spelling is not the first row's. |

## Left out

- TemplateKey.StripTemplateArguments: models the bracket loop; the preceding rewrite of operator spellings is not modelled, so the results hold for names without them.
- CallText.Scan: returns the raw text; decoding it and collapsing its white space come after the modelled loop.
- MacroUsers.Spread: the direct users are given; finding the enclosing function of an expansion and emitting the sites of system macros are not modelled.
- LinkViews.LinkView.Add: the pairs and the demangled names of a linker map are given; reading linker maps and demangling are not modelled.
- SiteRows.TableIsCanonical: gives a name without a family an empty family; `BuiltIff` and `BuildIsCanonical` cover the source's two errors. The backend is given as a function of the file.
- Json.DifferenceIsFirst: numbers are reals, so not-a-number and infinities are not modelled, and neither is the cut of long representations to 300 characters.
- AxisC.Run: observations are given; running the workers, repeating them for stability, hashing them and building the signature text of a difference are not modelled. An envelope whose `result`, or whose `observations`, is neither absent nor a dictionary counts as having no rows, where the source raises or iterates over it.
- UnigramFields.Extract: the library is given in place of the file name it is looked up by, and the copy written beside the log is not modelled.
- PerfRun.Harness.Run: the engine's answers, the retired instructions and the success of each call on the counter are given per cycle; timing and memory reports are not modelled.
- AllocFailure.Interposer.Child: the calls and messages of the process are given; processes, pipes and the setup of each operation are not modelled.
- Cp26.DeriveSyllable: requires tables with adjacent equal keys and at most two rows per key, which is what keeps the source's unchecked writes inside its buffer.
- Cp26Probe.ReadsBackIff: the tables are those the pinned keyboard satisfies; the index behind the probe is a given function, so its option gates are not modelled.
- SpellingKeys.KeySearchIsExact: the standard library's binary search is taken by its contract.
- ParserCounts.ParseGroup: the syllable tables are given as functions. Both enumeration loops of the source are one method with a flag for partial endings.
- KBest.KBestTo: the graph is given as valid; building it from the syllable tables is not modelled, and an arena of 2^32 entries is allowed for as in the source.
- The source-text table parser `extract` in crates/oxpinyin-core/build.rs.
- Keystrokes for the simple and discrete keyboards in tools/bisection/chewing-diff.c, which are first-match lookups.
- The user store, the C facades, lattice construction, and the case bodies of the contract driver.
