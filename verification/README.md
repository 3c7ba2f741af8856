# Verified model of the judge's core

The repository is a local judge for LeetCode-style problems. This project models its
algorithms in Dafny and proves what they promise, for all inputs, runs and schedules.

* **Watch mediator** (`Mediator*`, `WatchMediator`): the latest-wins scheduler as a state
  machine, one step for each stretch between two awaits, with a history of every target's
  runs. The class `WatchMediator` updates its fields as the source does, and each of its
  methods is proved to take the state machine's step.
* **Canonical codec** (`Unicode`, `Json*`, `Base64`, `Numerals`, `LeafGrammar`,
  `LeafTexts`, `NumberTexts`, `Words`, `Forms`, `Values`, `Encoding`, `EncodingRules`, `WireFormat`, `Canonical`, `Trees`, `Decoding*`, `Codec*`, `Spelling*`,
  `Shortest*`): all tags; text is a sequence of UTF-16 code units. The strict parser is proved to be the grammar of RFC 8259;
  encoder and decoder are proved to be inverse up to the normal form, and the decoder to accept
  exactly the spellings of canonical values, of which the encoder's is the shortest.
  `WireFormat`, `JsonLiterals`, `LeafTexts` and `NumberTexts` state the formats once more as
  literal characters, apart from the definitions the encoder and decoder share.
  `JsonParserObject` and `CodecObject` are the imperative parser, budget, encoder and builder,
  refining the functions of the theorems.
* **Comparator** (`Comparator*`, `SemanticComparator`): first difference in traversal order, agreeing
  with the bytes; the order is stated tag by tag in `ComparatorLaws`.
* **Pools** (`StressPool`, `FixedCasePool`): every interleaving of the worker loops.
* **Exact arithmetic** (`Bits`, `Ordering`, `FisherYates`, `Statistics`, `Benchmarks`,
  `FloatText`, `FloatLayout`).
* **Pointer structures** (`LinkedLists`, `LevelOrder`, `TreeNodes`, `TreeLevels`): the Python adapters over a
  heap of mutable nodes, and the level-order validator of the LeetCode decoder.

A value is a leaf or a node with a shape and its sub-values in traversal order. What the source
throws is an `Option` or `Result` here. Integers are unbounded, and every wrap-around (the 64-bit
generator, the 32-bit shifts of base64url) is written out.

Where the code differs from its comments, or from what a reader may suppose, the code is followed:

* A drain of an idle mediator never resolves (`src/watch/scheduler.ts:182-185`);
  `MediatorDrain.DrainResolvesIffItFoundWork` gives the exact condition.
* A run superseded while its re-scan is awaited still commits
  (`src/watch/scheduler.ts:300-306`); `MediatorLimits.CommitIsNewestIffNotCancelled` says when.
* `json_string` is documented to match `JSON.stringify` byte for byte
  (`src/execution/runtimes/python/harness/canonical/jsonio.py:108-114`). It does exactly on text
  without lone surrogates; the encoders check string leaves and names for those, but not paths
  (`CodecLimits.PathsMayBeIllFormed`).
* The float check admits several texts of one value, so two floats that are equal as numbers may
  have different encodings; `FloatLayout.PlainIffRendered` says which text is the formatted one.
* The decoder spends a depth level on enum and exception payloads and rejects empty identity
  strings; the encoder does neither. `Codec.RoundTrip` states the difference exactly.
* A tree whose node carries the payload None is not rebuilt from its slots
  (`LevelOrder.BuildOfSlots`).

## Model

| member | source | states |
|---|---|---|
| MediatorTheorems.ReachableStatesAreConsistent | src/watch/scheduler.ts:194-323 | In every state of every interleaving: `activeSlots` is the number of targets with an active run and at most `slots`; the queue has no duplicates and holds exactly the targets with a pending run; pending runs carry the current generation; an active run is cancelled exactly when its generation is no longer current; once `start` has settled no eligible target waits beside a free slot. |
| MediatorTheorems.RunHistoriesAreLatestWins | src/watch/scheduler.ts:262-331 | Over every interleaving, for each target: a started run has ended before the next starts; commits come in scheduling order with non-decreasing generations; each commit was preceded by a re-scan that began while the run was newest, not cancelled and observed, and that equalled its snapshot; every scheduled run is pending, active, committed or was reported cancelled. |
| MediatorChanges.NoTriggerIsLost | src/watch/scheduler.ts:138-247 | Over every interleaving: if a debounce timer expires and the mediator still observes at the end, then a scan for the newest trigger then expired began at or after that expiry, or that trigger waits behind a re-scan still in flight. |
| MediatorChanges.DeferredTriggerIsScanned | src/watch/scheduler.ts:239-247 | However a re-scan ends while observing (stable, unstable, unchanged or thrown), the trigger deferred during it is the next one scanned, and nothing stays deferred; without one the target is idle. |
| MediatorChanges.FiredTimerIsKept | src/watch/scheduler.ts:149-206 | An expired timer begins a scan of an idle target; during a re-scan it replaces the deferred trigger and leaves the re-scan alone. |
| MediatorChanges.DeferredWaitsForRescan | src/watch/scheduler.ts:194-247 | In every reachable state a trigger is deferred only while a re-scan of its target is in flight. |
| MediatorChanges.OtherStepsLeaveRescan | src/watch/scheduler.ts:118-346 | Re-scan and deferred trigger of a target move only by its own timer, scan, stability check and failure. |
| MediatorChanges.ChangeIsScheduled | src/watch/scheduler.ts:207-238 | A changed stable snapshot raises the generation by one, is stored, and becomes a run with the trigger of its scan that waits or has started; the superseded waiting and running runs are reported, in that order, before it. |
| MediatorChanges.SameSnapshotIsIgnored | src/watch/scheduler.ts:219-221 | An unchanged stable snapshot leaves generation, runs, timer and history alone. |
| MediatorChanges.UnstableSnapshotIsHintedAgain | src/watch/scheduler.ts:213-218 | An unstable one restarts the timer with the same trigger and schedules nothing. |
| MediatorChanges.HintRestartsTimer | src/watch/scheduler.ts:141-156 | A hint restarts the timer of its own target and changes nothing else of any target. |
| MediatorChanges.InitialScanIsScheduled | src/watch/scheduler.ts:123-131 | An initial snapshot becomes a waiting run of the current generation, reported last and queued at the end unless queued already. |
| MediatorChanges.FreshRunCommits | src/watch/scheduler.ts:290-331 | From any state: a fresh run that returns, is re-scanned with its own snapshot and decided, commits, with exactly three events in between. |
| MediatorChanges.EndedRunFreesItsSlot | src/watch/scheduler.ts:315-322 | After a commit the run is gone, its target runs at most the run that waited, and no eligible target waits beside a free slot. |
| MediatorChanges.PumpIsFair | src/watch/scheduler.ts:262-288 | Of two targets that may launch, the one queued earlier launches first. |
| MediatorChanges.PumpKeepsOrder | src/watch/scheduler.ts:262-288 | Targets left in the queue keep their order. |
| MediatorChanges.StaleRunIsReported | src/watch/scheduler.ts:300-314 | A run that returns but is not fresh is reported cancelled, stale or draining, in that order of precedence, and ends. |
| MediatorChanges.ChangedRunIsReported | src/watch/scheduler.ts:300-314 | So is a run whose re-scan finds another snapshot. |
| MediatorChanges.FailureIsReported | src/watch/scheduler.ts:315-322 | A run, re-scan or commit that throws is reported and ends. |
| MediatorChanges.DrainStopsEverything | src/watch/scheduler.ts:166-181 | Draining clears the timer and the waiting run of every target, cancels its active run, reports both in that order, and empties the queue; a re-scan goes on. |
| MediatorSafety.RunKeepsInv | src/watch/scheduler.ts:118-346 | The invariant behind both theorems is kept by every enabled step of any interleaving. |
| MediatorDrain.DrainResolvesIffItFoundWork | src/watch/scheduler.ts:166-187 | For any later interleaving: the promise of the first `drain` resolves if and only if work was in flight at the call and all of it has finished. A drain of an idle mediator stays pending. |
| MediatorDrain.NothingStartsAfterDrain | src/watch/scheduler.ts:166-187 | Once draining, whatever follows: no run is scheduled, started or taken to a re-scan, and nothing is queued, pending or waiting on a timer. |
| MediatorDrain.ResolvedMeansQuiet | src/watch/scheduler.ts:333-346 | When the drain promise has resolved, no run is active, no re-scan in flight, nothing queued or pending, and no later step changes any history, so nothing commits. |
| MediatorLimits.IdleDrainNeverResolves | src/watch/scheduler.ts:182-185 | The idle check runs before `this.draining` is assigned: any reachable mediator drained while no slot and no re-scan is in use never resolves, over all continuations. |
| MediatorLimits.SupersededRunStillCommits | src/watch/scheduler.ts:300-306 | A concrete interleaving in which a run superseded and cancelled during its re-scan commits all the same. |
| MediatorLimits.CommitIsNewestIffNotCancelled | src/watch/scheduler.ts:300-314 | In every reachable state, exactly when the late commit is of an observed run of the newest generation: when the run was not cancelled by the time of the decision. |
| WatchMediator.WatchMediator.constructor | src/watch/scheduler.ts:91-115 | A new mediator has no runs and one free state per target, and is valid: every public method and continuation keeps its state reachable. |
| WatchMediator.Construct | src/watch/scheduler.ts:89-115 | Succeeds exactly for options in range and distinct target ids; a reported duplicate does occur twice. |
| WatchMediator.KeepsItsPromises | src/watch/scheduler.ts:79-380 | Of any valid object: slots in range, pending runs queued and of the current generation, histories latest-wins, nothing active or queued once drained. |
| WatchMediator.WatchMediator.Start | src/watch/scheduler.ts:118-134 | The object's new state is the one the state machine gives; likewise the members below. |
| WatchMediator.WatchMediator.Hint | src/watch/scheduler.ts:141-156 | Restarts the debounce timer of an observed target. |
| WatchMediator.WatchMediator.HintAll | src/watch/scheduler.ts:159-163 | Hints every target while observing. |
| WatchMediator.WatchMediator.Drain | src/watch/scheduler.ts:166-187 | Stops observing, cancels pending and active runs and timers, empties the queue, then checks for idleness before the promise is stored. |
| WatchMediator.WatchMediator.ConfirmChange | src/watch/scheduler.ts:194-206 | Defers a trigger while a re-scan is in flight, else begins one. |
| WatchMediator.WatchMediator.AcceptStable | src/watch/scheduler.ts:207-238 | A changed stable snapshot advances the generation, supersedes the active run and replaces the pending one. |
| WatchMediator.WatchMediator.EndRescan | src/watch/scheduler.ts:239-247 | Ends the re-scan, checks for idleness and replays a deferred trigger; `MediatorChanges.DeferredTriggerIsScanned` says what that means for the next scan. |
| WatchMediator.WatchMediator.ReplacePending | src/watch/scheduler.ts:249-260 | Replaces and reports the waiting run; queues the target once. |
| WatchMediator.WatchMediator.Pump | src/watch/scheduler.ts:262-288 | The loop launches the first eligible target of the queue while a slot is free. |
| WatchMediator.WatchMediator.OnRunReturned | src/watch/scheduler.ts:290-306 | Freshness is checked, and the run abandoned or taken to its re-scan. |
| WatchMediator.WatchMediator.OnDecided | src/watch/scheduler.ts:306-314 | Commits on an equal re-scan with no second check, else reports the run stale. |
| WatchMediator.WatchMediator.OnInitialScan | src/watch/scheduler.ts:123-131 | Initial scan result of one target: nothing after a drain, else a pending run at the current generation, which need not be 0. |
| WatchMediator.WatchMediator.OnStartSettled | src/watch/scheduler.ts:133-134 | When all initial scans are in, the queue is pumped. |
| WatchMediator.WatchMediator.OnTimer | src/watch/scheduler.ts:149-155 | The debounce timer confirms its trigger. |
| WatchMediator.WatchMediator.OnScanned | src/watch/scheduler.ts:207-211 | The scan hands over to the stability check. |
| WatchMediator.WatchMediator.OnStabilised | src/watch/scheduler.ts:207-247 | The stable snapshot is accepted and the re-scan ended, in one step. |
| WatchMediator.WatchMediator.OnRescanFailed | src/watch/scheduler.ts:239-247 | A throwing scan still ends the re-scan. |
| WatchMediator.WatchMediator.FindEligible | src/watch/scheduler.ts:271-275 | The loop finds the first queued target without an active run and with a pending one. |
| WatchMediator.WatchMediator.LaunchAt | src/watch/scheduler.ts:276-286 | Takes that target off the queue and starts its run in a slot. |
| WatchMediator.WatchMediator.OnSnapshotRead | src/watch/scheduler.ts:325-331 | Records whether the re-scan equals the snapshot of the run. |
| WatchMediator.WatchMediator.OnFailed | src/watch/scheduler.ts:315-322 | A throwing run, re-scan or commit is reported and its slot freed. |
| WatchMediator.WatchMediator.OnCommitReturned | src/watch/scheduler.ts:306-322 | After the commit the slot is freed and the queue pumped. |
| WatchMediator.WatchMediator.FinishDrainIfIdle | src/watch/scheduler.ts:337-346 | Resolves a stored promise when no slot and no re-scan is in use. |
| Unicode.WellFormedIffUtf16 | src/judging/codec/utf8.ts:121-139 | Code units have no lone surrogate exactly when they are the UTF-16 form of some code-point sequence. |
| Unicode.HasLoneSurrogate | src/judging/codec/utf8.ts:121-139 | The index loop returns true exactly for the other texts. |
| Unicode.CompareUtf8 | src/judging/codec/utf8.ts:93-106 | The byte loop's sign is negative, zero or positive exactly as the encoded bytes compare. |
| Unicode.Utf8KeepsOrder | src/judging/codec/utf8.ts:93-106 | UTF-8 preserves lexicographic code-point order in both directions. |
| Unicode.Utf8CharIsRfc3629 | src/judging/codec/utf8.ts:93-106 | The bytes of a code point are those of the table in section 4 of RFC 3629, read from the bytes back to the code point. |
| Unicode.CompareIsCodePointOrder | src/judging/codec/utf8.ts:93-106 | The order on texts is code-point order. |
| Unicode.CompareIsTotalOrder | src/judging/codec/utf8.ts:93-106 | Without lone surrogates it is irreflexive, transitive and total, and equal bytes mean equal texts. |
| CodecWire.Utf8RoundTrip | src/judging/codec/utf8.ts:40-77 | Encoding text to bytes and decoding it strictly returns the text exactly when it has no lone surrogate. |
| JsonDocuments.ParserIsTheGrammar | src/judging/codec/json.ts:91-455 | The parser accepts a text with value `j` if and only if the text is white space, a rendering of a concrete RFC 8259 syntax tree with distinct keys and bounded depth that denotes `j`, and white space. |
| JsonDocuments.ShallowerReads | src/judging/codec/json.ts:431-445 | Starting at a smaller depth never changes what is read. |
| JsonDocuments.DeepTextIsNeverMisread | src/judging/codec/json.ts:431-445 | A rendering beyond the depth limit is either refused or read as its own value. |
| JsonLiterals.ShortEscapesAreRead | src/judging/codec/json.ts:286-321 | The eight two-character escapes as literal text: a backslash and `n` is read as code unit 0x0a, and so on. |
| JsonLiterals.OtherEscapesAreRefused | src/judging/codec/json.ts:286-321 | After a backslash no letter but these eight and `u` is accepted. |
| JsonLiterals.HexEscapesAreRead | src/judging/codec/json.ts:323-351 | Four hex digits of either case are read, the most significant first. |
| JsonLiterals.PlainCharactersAreRead | src/judging/codec/json.ts:257-284 | Any other character from the space on stands for itself; a control character is refused. |
| JsonLiterals.LiteralsConcatenate | src/judging/codec/json.ts:257-284 | Two literals read as x and y, joined inside one pair of quotes, are read as x followed by y. |
| JsonLiterals.KeywordsAreRead | src/judging/codec/json.ts:173-184 | `null`, `true` and `false` as literal text. |
| JsonLiterals.PunctuationIsRead | src/judging/codec/json.ts:353-429 | Brackets, braces, commas and colons around any two values, as literal text. |
| JsonLiterals.WhiteSpaceIsRead | src/judging/codec/json.ts:130-145 | Blank, tab, line feed and carriage return may surround a value, and no other character. |
| JsonLiterals.NumbersAreReadIffParts | src/judging/codec/json.ts:192-242 | A text is read as a number exactly when it is a minus or nothing, digits without a leading zero, and perhaps a fraction and an exponent, all spelled out. |
| JsonLiterals.NestingIsLimitedTo4096 | src/judging/codec/json.ts:431-445 | n brackets around `null` are read if and only if n is at most 4096. |
| JsonParserObject.ParseJson | src/judging/codec/json.ts:469-482 | The parser object returns the value, or the failure and its position, that the specification gives. |
| JsonParserObject.Parser.ParseDocument | src/judging/codec/json.ts:100-113 | White space around one value and nothing after it. |
| JsonParserObject.Parser.ParseValue | src/judging/codec/json.ts:147-172 | `pos`, `depth` and result follow the specification; likewise for the members below. |
| JsonParserObject.Parser.ParseNumber | src/judging/codec/json.ts:192-242 | Consumes the longest number and returns its raw text, or fails where the grammar does. |
| JsonParserObject.Parser.ParseString | src/judging/codec/json.ts:257-284 | The loop returns the decoded units. |
| JsonParserObject.Parser.ParseEscape | src/judging/codec/json.ts:286-337 | Short and four-digit escapes. |
| JsonParserObject.Parser.ParseArray | src/judging/codec/json.ts:353-380 | The loop collects the items and restores the depth. |
| JsonParserObject.Parser.ParseObject | src/judging/codec/json.ts:382-429 | The loop refuses duplicate keys and restores the depth. |
| JsonPrinter.QuoteDenotes | src/judging/codec/encode.ts:583-585 | The quoted form of any text is a valid string literal denoting it, and is well-formed even where the text is not. |
| JsonLiterals.ShortEscapesAreWritten | src/judging/codec/encode.ts:583-585 | The seven units with a two-character escape, as literal output of both serializers. |
| JsonLiterals.OthersAreWritten | src/judging/codec/encode.ts:583-585 | Other control characters are written with four lower-case hex digits, everything else as itself, by both serializers. |
| JsonLiterals.LiteralsAreWrittenPiecewise | src/judging/codec/encode.ts:583-585 | The literal of a concatenation is that of its parts, so single units decide; a well-formed first part is enough. |
| JsonLiterals.SurrogatesAreWritten | src/judging/codec/encode.ts:583-585 | A surrogate pair is written as it is, an unpaired surrogate as `\u` and its hex digits. |
| JsonPrinter.PrintParses | src/judging/codec/encode.ts:577-585 | The strict parser returns exactly the tree that was printed, when it is printable within the depth limit. |
| JsonPrinter.PrintParsesOrFails | src/judging/codec/encode.ts:577-585 | At any depth, printed text is never read as a different tree. |
| JsonPrinter.PrintIsInjective | src/judging/codec/encode.ts:577-585 | Different trees are printed differently, however deep they nest. |
| JsonPrinter.PythonJsonString | src/execution/runtimes/python/harness/canonical/jsonio.py:108-127 | The loop writes the escapes of the plain serializer, for any code points, lone surrogates included. |
| JsonPrinter.SerializersAgreeIffWellFormed | src/execution/runtimes/python/harness/canonical/jsonio.py:108-127 | Python's serializer and `JSON.stringify` give the same text if and only if the value has no lone surrogate. |
| Base64.DecodeIffEncode | src/judging/codec/leaf-grammar.ts:141-204 | For all texts and bytes: `t` decodes to `b` if and only if `b` encodes to `t`. |
| Base64.AlphabetIsTable2 | src/judging/codec/leaf-grammar.ts:141-204 | The 64 letters are those of table 2 of RFC 4648, in order, in both directions, and no other character is a letter. |
| Base64.GroupIsBase64 | src/judging/codec/leaf-grammar.ts:141-159 | One to three bytes are a 24-bit number padded with zeros, written in base 64 from the left. |
| Base64.GroupsConcatenate | src/judging/codec/leaf-grammar.ts:141-159 | Longer inputs are encoded three bytes at a time. |
| Base64.EncodeBase64Url | src/judging/codec/leaf-grammar.ts:141-159 | The loop over a never-masked accumulator, wrapped to 32 bits by each shift, writes the right text at any length. |
| Base64.DecodeBase64Url | src/judging/codec/leaf-grammar.ts:180-204 | The same for decoding, with the refusals of foreign letters, bad lengths and stray bits. |
| Numerals.DecimalReads | src/judging/codec/leaf-grammar.ts:126-128 | The decimal form of every integer is canonical and reads back as that integer. |
| Numerals.DecimalUnique | src/judging/codec/leaf-grammar.ts:126-128 | Each integer has one canonical text. |
| Numerals.CanonicalFloatIffParts | src/judging/codec/leaf-grammar.ts:71-92 | The check accepts exactly the texts with sign, integer, fraction and exponent parts of the grammar. |
| NumberTexts.FloatIffNumeral | src/judging/codec/leaf-grammar.ts:71-92 | Accepted float texts character by character: no leading zero, no trailing zero in the fraction, a signed exponent without leading zero, zero only as `0`, and the negative-zero flag only with it. |
| NumberTexts.DecimalIffNumeral | src/judging/codec/leaf-grammar.ts:109-114 | Accepted decimals character by character. |
| LeafGrammar.DecimalLiteralIffParts | src/judging/codec/leaf-grammar.ts:109-114 | The greedy scan accepts exactly the texts with sign, whole, point, fraction and exponent parts of the grammar. |
| LeafGrammar.DateIffCalendarDay | src/judging/codec/leaf-grammar.ts:232-281 | The accepted dates are exactly the zero-padded texts of calendar days, leap years included. |
| LeafGrammar.TimeIffClockTime | src/judging/codec/leaf-grammar.ts:295-313 | The accepted times are exactly the texts of clock times with up to six fraction digits. |
| LeafGrammar.DatetimeIffBoth | src/judging/codec/leaf-grammar.ts:328-336 | A date, `T` and a time; the first `T` is the separator without ambiguity. |
| LeafTexts.DateIffDigits | src/judging/codec/leaf-grammar.ts:232-281 | Accepted dates are four, two and two digits joined by `-` that name a day of the proleptic Gregorian calendar. |
| LeafTexts.TimeIffDigits | src/judging/codec/leaf-grammar.ts:295-313 | Accepted times are two digits three times joined by `:`, in range, and perhaps a point and one to six digits. |
| LeafTexts.DatetimeIffParts | src/judging/codec/leaf-grammar.ts:328-351 | Accepted date-times are a date, `T` and a time; an offset is accepted exactly when shorter than a day. |
| LeafTexts.UuidIffGroups | src/judging/codec/leaf-grammar.ts:217-219 | Accepted UUIDs are five groups of lower-case hex digits, 8-4-4-4-12, joined by `-`. |
| LeafTexts.RelativePathIffSegments | src/judging/codec/leaf-grammar.ts:378-408 | Accepted paths are names other than `.` and `..` joined by `/`, or by a backslash without any `/` or drive. |
| DecodingLeaves.IntFormReads | src/judging/codec/encode.ts:193-198 | An integer written as number or string, by size, is read back. |
| DecodingLeaves.IntFormUnique | src/judging/codec/decode.ts:282-310 | Each integer has one accepted form, number inside the safe range and string outside. |
| FloatText.TextDenotesDigits | src/execution/runtimes/python/harness/canonical/grammar.py:114-135 | In all four layout ranges the text is canonical and denotes exactly `digits * 10^(n - k)`. |
| FloatText.LayoutByMagnitude | src/execution/runtimes/python/harness/canonical/grammar.py:114-135 | An exponent is written exactly from 10^21 on and below 10^-6, a point exactly where digits remain behind it. |
| FloatText.CanonicalFloatText | src/execution/runtimes/python/harness/canonical/grammar.py:138-176 | From any mantissa and exponent, zeros stripped, the text denotes exactly that value, is the layout of its significant digits, and zero gives `0`. |
| FloatText.DenotedIsCanonical | src/execution/runtimes/python/harness/canonical/grammar.py:114-176 | What the formatter writes passes the codec's float check. |
| FloatText.GrammarIsNotUnique | src/judging/codec/leaf-grammar.ts:71-92 | The float check admits two texts of one value: `100` and `1e+2`. |
| FloatLayout.PlainIffOwnTwin | src/execution/runtimes/python/harness/canonical/grammar.py:114-135 | A nonzero text of the grammar is the layout of its own digits if and only if its parts pass a guard on lengths and exponent. |
| FloatLayout.TwinDenotesSame | src/execution/runtimes/python/harness/canonical/grammar.py:114-135 | Every other text has a second text, the laid-out one, denoting the same value. |
| FloatLayout.RenderingUnique | src/execution/runtimes/python/harness/canonical/grammar.py:138-176 | The formatted text depends on the value only, not on how the repr spells it. |
| FloatLayout.PlainIffRendered | src/execution/runtimes/python/harness/canonical/grammar.py:138-176 | The texts that pass the guard are exactly those the formatter writes. |
| Codec.RoundTrip | src/judging/codec/encode.ts:51-198 | For every value the encoder accepts: decoding its text gives the normal form (sets and dicts sorted, trailing tree nulls dropped) if the value fits the decoder's depth accounting and has no empty identity string, and is refused otherwise. |
| Codec.EncodingIsInjective | src/judging/codec/encode.ts:77-198 | Of any two values the encoder accepts, read by the decoder or not: texts are equal if and only if normal forms are. |
| Codec.TreeIsInjective | src/judging/codec/encode.ts:77-198 | Different canonical values have different JSON trees, names empty or not, at any depth. |
| DecodingUnique.OneNode | src/judging/codec/encode.ts:157-178 | A written object is the form of one shape and one list of sub-nodes only. |
| Codec.AcceptedTextHasNormalForm | src/judging/codec/decode.ts:57-161 | Any accepted text denotes a value in normal form, which the encoder accepts under the same limits and writes as a text accepted as the same value. |
| Codec.SameValueIffSameEncoding | src/judging/codec/decode.ts:57-161 | Two accepted texts denote the same value if and only if they re-encode identically. |
| Codec.TreeBuilds | src/judging/codec/decode.ts:57-161 | The encoder's JSON tree of a canonical value builds that value exactly when its identity strings are non-empty. |
| Codec.BuiltIsCanon | src/judging/codec/decode.ts:322-640 | Whatever the builder accepts is canonical: sorted unique members and keys, distinct field names, reachable slots, legal leaves. |
| Canonical.EncWritesNorm | src/judging/codec/encode.ts:77-178 | The encoder writes the text of the normal form, which is canonical. |
| WireFormat.WireTextIsWritten | src/judging/codec/encode.ts:77-178 | What the encoder writes is `WireText` of the normal form: for each tag the members in wire order, names, tags and fixed strings as literal characters, sub-texts joined by commas. Nothing in it is shared with the encoder. |
| WireFormat.WireTextIsRead | src/judging/codec/decode.ts:57-161 | The decoder reads that literal text of every canonical value back as the value, exactly within its depth, node and name limits. |
| WireFormat.SequencesAreWritten | src/judging/codec/encode.ts:225-270 | For lists, tuples, sets and frozen sets the whole text: `{"items":[`, the sub-texts, `],"tag":"list"}` and likewise. |
| WireFormat.DecimalNotation | src/judging/codec/encode.ts:193-198 | Integers are written in positional decimal notation with a leading minus when negative. |
| EncodingRules.LeavesAreWrittenIff | src/judging/codec/encode.ts:85-156 | Which leaves the encoder writes: by the grammar of each tag, and offsets of at most 1439 minutes. |
| EncodingRules.IdentitiesAreWrittenIff | src/judging/codec/encode.ts:157-437 | Enums and exceptions are written if and only if both identity strings are well-formed, given their sub-values are. |
| EncodingRules.RecordsAreWrittenIff | src/judging/codec/encode.ts:386-416 | Records: well-formed names, no two field names equal. |
| EncodingRules.ListNodesAreWrittenIff | src/judging/codec/encode.ts:440-470 | List nodes: no cycle or one that closes at a payload. |
| EncodingRules.TreesAreWrittenIff | src/judging/codec/encode.ts:473-510 | Trees: no absent slot has a present child at `2i+1` or `2i+2`. |
| EncodingRules.ClassTracesAreWrittenIff | src/judging/codec/encode.ts:513-553 | Class traces: well-formed class and method names. |
| EncodingRules.RefusalsPropagate | src/judging/codec/encode.ts:77-178 | A value is refused when a sub-value is, or when it has the wrong number or kind of sub-values. |
| Canonical.CanonIsFixed | src/judging/codec/encode.ts:77-178 | A canonical value is its own normal form and is always encodable. |
| Canonical.NormIsStable | src/judging/codec/encode.ts:77-178 | Normalising again changes neither the value nor its text. |
| Canonical.NormKeeps | src/judging/codec/limits.ts:50-89 | Normalising changes neither the node count nor the depth on either side. |
| Trees.TreeNesting | src/judging/codec/json.ts:59 | A value of decoder depth `d` nests at most `4d + 2` JSON levels, so the structural limit never refuses a value that fits. |
| Values.DecoderSpendsMore | src/judging/codec/decode.ts:464-542 | The decoder's depth is never below the encoder's. |
| DecodingShapes.NodeOpens | src/judging/codec/decode.ts:464-642 | For every container tag, an object holding the encoder's fields in any order opens as that shape with its parts in order, unless an identity string is empty. |
| CodecOrder.SetOrderIrrelevant | src/judging/codec/encode.ts:246-270 | Sets and frozensets whose members are permutations of each other encode identically, or both fail. |
| CodecOrder.DictOrderIrrelevant | src/judging/codec/encode.ts:273-320 | The same for dict entries. |
| CodecOrder.SetFailsExactlyOnDuplicates | src/judging/codec/encode.ts:246-270 | A set fails to encode exactly when a member does or two members encode to the same text. |
| CodecOrder.DictFailsExactlyOnDuplicateKeys | src/judging/codec/encode.ts:273-320 | A dict fails exactly when a key or value does or two keys encode to the same text. |
| CodecWire.WireRoundTrip | src/judging/codec/tagged-jsonl-v1.ts:94-135 | The round trip over UTF-8 bytes, under the payload limit. |
| CodecWire.WireInjective | src/judging/codec/tagged-jsonl-v1.ts:94-135 | Of any two values the codec writes: bytes are equal if and only if normal forms are. |
| Spellings.DecodeIffSpells | src/judging/codec/decode.ts:57-161 | The language of the decoder: a text is accepted as `v` if and only if `v` is canonical, named and within the limits and the text spells the encoder's JSON tree of `v`, with any white space, escapes and member order. |
| Spellings.BuildIffSpells | src/judging/codec/decode.ts:57-161 | The same for parsed trees: a tree builds `v` exactly when it is the encoder's tree of `v` up to member order. |
| SpellingNodes.NodeSpelt | src/judging/codec/decode.ts:464-642 | For every container tag, an object the builder opens is the encoder's form filled with the opened parts. |
| SpellingBuilds.AlikeBuilds | src/judging/codec/decode.ts:183-220 | Reordering the members of any object changes nothing about what is built, or that nothing is. |
| Shortest.QuoteIsShortest | src/judging/codec/encode.ts:583-585 | `JSON.stringify` quoting takes no more UTF-8 bytes than any well-formed literal of the same string. |
| ShortestSpelling.EncodingIsShortest | src/judging/codec/encode.ts:577-585 | No accepted spelling of a value takes fewer bytes than the encoder's text of it. |
| ShortestSpelling.AcceptedBytesHaveNormalForm | src/judging/codec/tagged-jsonl-v1.ts:94-135 | Accepted bytes denote a value in normal form; it is written again under the same node, depth and payload limits, in no more bytes than were read, and those are accepted as the same value. |
| CodecLimits.TowersAreReadTo256 | src/judging/codec/encode.ts:157-165 | Enums nested n deep are written up to the node limit and read back if and only if n is at most 256. |
| CodecLimits.ListsNestTo256 | src/judging/codec/limits.ts:50-89 | Lists nested n deep are written if and only if n is at most 256. |
| CodecLimits.NodesAreLimitedToAMillion | src/judging/codec/limits.ts:64-72 | A list of n nulls is written if and only if it has at most a million nodes. |
| CodecWire.PayloadsAreLimitedTo16MiB | src/judging/codec/tagged-jsonl-v1.ts:94-106 | An encodable value gives bytes, those of its text, if and only if they are at most 16777216. |
| CodecLimits.NamelessEnumIsNotRead | src/judging/codec/decode.ts:464-480 | An enum with an empty type or member name is written but not read. |
| CodecLimits.PathsMayBeIllFormed | src/judging/codec/leaf-grammar.ts:378-408 | A path with a lone surrogate is written and read back, while the Python serializer would write another text. |
| CodecObject.Budget.constructor | src/judging/codec/limits.ts:58-61 | Limits default to 256 levels and a million nodes. |
| CodecObject.Budget.CountNode | src/judging/codec/limits.ts:64-72 | Tallies one node, or refuses. |
| CodecObject.Budget.Enter | src/judging/codec/limits.ts:75-83 | Descends one level, or refuses. |
| CodecObject.Budget.Leave | src/judging/codec/limits.ts:86-88 | Ascends one level. |
| CodecObject.EncodeNode | src/judging/codec/encode.ts:77-178 | With a mutable budget, succeeds exactly when the budget-free encoder does and the value's depth and count are affordable, with the same text and that charge. |
| CodecObject.EncodeValue | src/judging/codec/encode.ts:51-60 | Agrees with the encoder of the theorems. |
| CodecObject.BuildNode | src/judging/codec/decode.ts:57-161 | With a mutable budget, succeeds exactly when the budget-free builder does and the result is affordable. |
| CodecObject.DecodeText | src/judging/codec/tagged-jsonl-v1.ts:107-134 | Parser object, budget and builder together agree with the decoder of the theorems. |
| CodecObject.ArrangeTexts | src/judging/codec/encode.ts:246-320 | Sorting the encoded texts and comparing neighbours, as the encoder does for sets and dicts. |
| CodecObject.CheckNeighbours | src/judging/codec/encode.ts:255-262 | Comparing neighbours of a sorted list finds duplicates exactly when there are any. |
| CodecObject.CheckSortedUnique | src/judging/codec/decode.ts:337-351 | The loop accepts exactly strictly ascending byte order. |
| CodecObject.CheckReachable | src/judging/codec/encode.ts:485-497 | The loop accepts exactly the slot lists in which an absent slot has no present child at `2i+1` or `2i+2`. |
| CodecObject.StripTrailing | src/judging/codec/encode.ts:480-483 | Pops the trailing absent slots. |
| CodecObject.CheckDistinct | src/judging/codec/encode.ts:386-417 | The name-set loop accepts exactly distinct names. |
| Sorting.SortIgnoresOrder | src/judging/codec/encode.ts:246-320 | Sorting by key gives one result for all permutations with distinct keys. |
| Sorting.SortedStrictIffDistinct | src/judging/codec/encode.ts:255-262 | Sorted neighbours ascend strictly exactly when all keys are distinct. |
| SemanticComparator.SemanticMismatch | src/judging/comparator/semantic.ts:53-270 | The dispatch over tags, with the recursive calls and early returns of the source, reports what `Mismatch` does. |
| SemanticComparator.ItemsMismatch | src/judging/comparator/semantic.ts:288-306 | The loop over items; likewise the next five. |
| SemanticComparator.DictMismatch | src/judging/comparator/semantic.ts:309-341 | Entries: key by encoding, then value. |
| SemanticComparator.RecordMismatch | src/judging/comparator/semantic.ts:344-380 | Fields: name, then value. |
| SemanticComparator.TreeNodeMismatch | src/judging/comparator/semantic.ts:383-414 | Slots: presence, then payload. |
| SemanticComparator.ClassTraceMismatch | src/judging/comparator/semantic.ts:417-441 | Class name, constructor arguments, then operations. |
| SemanticComparator.OneOperationMismatch | src/judging/comparator/semantic.ts:442-481 | Method, arguments, then expected result. |
| ComparatorLaws.ItemsInOrder | src/judging/comparator/semantic.ts:273-306 | Lists, tuples, sets and frozen sets of one tag: different lengths are reported at the node; if the first k pairs agree and the k-th do not, the path is the one reported for that pair under `items[k]`; if all agree there is no mismatch. Like the next eight, in terms of the sub-values alone. |
| ComparatorLaws.PayloadsInOrder | src/judging/comparator/semantic.ts:242-251 | List nodes: cycle and length at the node, then the first pair of payloads that does not agree, under `values[k]`. |
| ComparatorLaws.EntriesInOrder | src/judging/comparator/semantic.ts:309-341 | Dicts: size at the node, then in the first entry that differs the key at `entries[k].key` if its encodings differ, else the value under `entries[k].value`. |
| ComparatorLaws.FieldsInOrder | src/judging/comparator/semantic.ts:344-380 | Records: identity and count at the node, then the first field that differs, its name before its value. |
| ComparatorLaws.SlotsInOrder | src/judging/comparator/semantic.ts:383-414 | Trees: slot count at the node, then the first slot whose presence differs or whose payloads do not agree, under `values[k]`. |
| ComparatorLaws.RealThenImaginary | src/judging/comparator/semantic.ts:116-122 | Complex numbers: the real parts decide, and only if they agree the imaginary ones. |
| ComparatorLaws.IdentityThenPayload | src/judging/comparator/semantic.ts:210-216 | Enums: type and member at the node, then the payload under `value`. |
| ComparatorLaws.ConstructorInOrder | src/judging/comparator/semantic.ts:417-441 | Class traces: name at the node, argument count at `constructor`, the first argument that does not agree, then the operation count at `operations`. |
| ComparatorLaws.OperationsInOrder | src/judging/comparator/semantic.ts:442-481 | With everything before operation i in agreement: method, argument count, first argument that does not agree, presence of a result, and the result, each at its own path. |
| ComparatorLaws.TracesAgree | src/judging/comparator/semantic.ts:417-481 | Class traces of one shape whose sub-values all agree have no mismatch. |
| ComparatorLaws.ExceptionsByEncoding | src/judging/comparator/semantic.ts:233-240 | Exceptions are compared by their encodings only. |
| ComparatorLaws.LeavesDecide | src/judging/comparator/semantic.ts:59-208 | Leaves mismatch, at the node, exactly when they differ. |
| ComparatorLaws.TagDecides | src/judging/comparator/semantic.ts:59-61 | Different tags are reported at the node before anything else. |
| ComparatorLaws.PathsArePrefixed | src/judging/comparator/semantic.ts:53-481 | The path of the node is prefixed to whatever is found in it, and changes nothing else. |
| ComparatorOrder.MismatchIsFirstDifference | src/judging/comparator/semantic.ts:53-481 | No mismatch means equal traversals; otherwise the path is that of the first position, in traversal order, where the two traversals differ. |
| ComparatorEquality.NoMismatchIffSameEncoding | src/judging/comparator/exact-v1.ts:33-75 | For any two canonical values the encoder can write: no mismatch, equal values and identical canonical encodings hold together or fail together. |
| ComparatorEquality.DecodedTextsCompareByEncoding | src/judging/comparator/exact-v1.ts:33-75 | The same, for any two accepted texts. |
| LinkedLists.BuildList | src/execution/runtimes/python/harness/canonical/adapters.py:46-61 | Fresh nodes hold the payloads in order and the last links to the node of the cycle index, counted from the end when negative; fails exactly when that index is out of range. |
| LinkedLists.ListToCanonical | src/execution/runtimes/python/harness/canonical/adapters.py:64-83 | On any finite heap, cyclic or not, the traversal ends and returns the payloads of the chain and where it closes. |
| LinkedLists.ChainIsUnique | src/execution/runtimes/python/harness/canonical/adapters.py:64-83 | The heap determines the chain: its nodes and its cycle index. |
| LinkedLists.BuildThenRead | src/execution/runtimes/python/harness/canonical/adapters.py:46-83 | Building and traversing returns the same payloads and the cycle index. |
| LinkedLists.PythonIndexWraps | src/execution/runtimes/python/harness/canonical/adapters.py:46-61 | A cycle index is accepted exactly from minus the length to below the length, and counts modulo it. |
| TreeNodes.BuildTree | src/execution/runtimes/python/harness/canonical/adapters.py:86-115 | The queue loop builds fresh nodes showing the tree that the slots denote; each node but the root hangs in exactly one place, the root in none. |
| TreeNodes.TreeToCanonical | src/execution/runtimes/python/harness/canonical/adapters.py:118-141 | The queue loop returns the level-order slots of the tree, trailing nulls popped. |
| TreeLevels.SlotsInLevelOrder | src/execution/runtimes/python/harness/canonical/adapters.py:86-141 | Slot 0 holds the root; the children of a node with r nodes before it are held by slots 2r+1 and 2r+2, the left one first; absent trees have a slot and no children. |
| TreeLevels.BuildThree | src/execution/runtimes/python/harness/canonical/adapters.py:86-115 | On the heap: three slots become the root, its left child and its right child. |
| TreeNodes.ValidateTree | src/judging/leetcode.ts:247-275 | The queue loop accepts exactly the lists without present slots beyond the last parent. |
| LevelOrder.SlotsOfBuild | src/judging/leetcode.ts:199-276 | Reading an accepted list and writing it again gives the list with trailing nulls stripped. |
| LevelOrder.BuildOfSlots | src/execution/runtimes/python/harness/canonical/adapters.py:86-141 | Writing a tree and reading it back rebuilds it if and only if no node carries a None payload. |
| LevelOrder.ReachableIffWritten | src/judging/leetcode.ts:247-275 | The validator accepts exactly the written forms of trees, up to trailing nulls. |
| TreeNodes.BuildThenWrite | src/execution/runtimes/python/harness/canonical/adapters.py:86-141 | The first round trip, on the heap. |
| TreeNodes.WriteThenBuild | src/execution/runtimes/python/harness/canonical/adapters.py:86-141 | The second round trip, on the heap, with its exact condition; the rebuilt nodes are fresh and unshared. |
| Ordering.MixIsBijective | src/benchmark/ordering.ts:109-114 | `mix64` has a two-sided inverse on 64-bit words. |
| Ordering.FullPeriod | src/benchmark/ordering.ts:104-107 | Within 2^64 advances every state is reached from every state, after exactly one number of advances, and a state returns to itself after 2^64 and not before. |
| Ordering.AdvanceApproaches | src/benchmark/ordering.ts:104-107 | Each advance brings any state one step closer to the state that mixes to zero, which is why rejection ends. |
| Ordering.GeneratorState.NextIndex | src/benchmark/ordering.ts:96-102 | The rejection loop ends from every state, with an index below the bound. |
| Ordering.GeneratorState.NextUint64 | src/benchmark/ordering.ts:104-107 | Advances the state and mixes it. |
| Ordering.SamplingIsUnbiased | src/benchmark/ordering.ts:96-102 | Every index below the bound comes from the same number of accepted words, and of generator states. |
| Ordering.StreamsAreSeparate | src/benchmark/ordering.ts:76-94 | Seeds, case ordinals and ordinals that differ in one coordinate give different initial states. |
| Ordering.CoordinatesAreOffset | src/benchmark/ordering.ts:85-94 | The two coordinates are recovered from their parts by unmixing, the second after its halves are exchanged, minus 0x243f6a8885a308d3 and 0x13198a2e03707344. |
| Ordering.StepsByGoldenRatio | src/benchmark/ordering.ts:104-107 | The generator advances by 0x9e3779b97f4a7c15 with wrap-around at 2^64. |
| Ordering.IndexIsFirstAcceptable | src/benchmark/ordering.ts:96-102 | From any state the index is the remainder of the first later word below the largest multiple of the bound, and the state is that of this word. |
| Ordering.RotateSwapsHalves | src/benchmark/ordering.ts:116-118 | Rotating by 32 exchanges the halves of the word. |
| FisherYates.PairedFisherYatesOrder | src/benchmark/ordering.ts:52-67 | The swaps on a copy give the shuffle by the drawn choices, a permutation, and leave the input unchanged. |
| FisherYates.ShufflePermutes | src/benchmark/ordering.ts:52-67 | A shuffle is a permutation that leaves the settled positions alone. |
| FisherYates.FirstChoiceIsLast | src/benchmark/ordering.ts:60-66 | The first choice puts its implementation last, and the others are shuffled with the remaining choices. |
| FisherYates.DrawnFromTheEnd | src/benchmark/ordering.ts:60-66 | The first index drawn, out of n, is for the last position; the others are those drawn for one implementation less. |
| FisherYates.EachOrderOnce | src/benchmark/ordering.ts:52-67 | Every order of distinct implementations comes from exactly one sequence of choices. |
| Statistics.RankIsPercentile | src/benchmark/statistics.ts:81-89 | The selected value is the nearest-rank percentile, characterised by counting, and no other value is. |
| Statistics.RankIgnoresOrder | src/benchmark/statistics.ts:81-89 | Percentiles do not depend on the order of the samples. |
| Statistics.RankIsMonotone | src/benchmark/statistics.ts:246-249 | Percentiles are monotone in the percentage. |
| Statistics.ExtremeRanks | src/benchmark/statistics.ts:81-89 | Every observation lies between percentiles 0 and 100. |
| Statistics.MeanIsBetween | src/benchmark/statistics.ts:227-230 | The truncated mean lies between minimum and maximum. |
| Statistics.MeanIsTruncated | src/benchmark/statistics.ts:227-230 | The mean is the integer part of the sum over the count. |
| Statistics.SquaresDominate | src/benchmark/statistics.ts:232-244 | The count times the sum of squares is at least the square of the sum, so the root is never of a negative number. |
| Statistics.IntegerSquareRoot | src/benchmark/statistics.ts:251-265 | The bisection returns the floor of the root, and fails exactly for negative values. |
| Statistics.PopulationStandardDeviation | src/benchmark/statistics.ts:232-244 | The result satisfies the bounds of the exact deviation, so two floors equal the floor of the exact value. |
| Statistics.DeviationUnique | src/benchmark/statistics.ts:232-244 | Only one natural satisfies those bounds. |
| Statistics.FewerThanHalfAreOutliers | src/benchmark/statistics.ts:136-155 | Values between the quartiles are never outliers, and strictly fewer than half of a non-empty series are. |
| Statistics.LabelsAreFences | src/benchmark/statistics.ts:136-155 | Over the reals: a value is labelled lower or upper exactly when below or above Tukey's fences of 1.5 interquartile ranges. |
| Benchmarks.CalculateStatistics | src/benchmark/statistics.ts:92-129 | Succeeds exactly when every valid non-warm-up sample has a non-negative duration and no negative memory. The count is the number of indices that are not warm-ups; each duration occurs among the aggregated ones as often as there are indices that are no warm-up, valid and have it, and likewise for memory; every field is the statistic of its name over those. |
| Benchmarks.AggregateIsOrdered | src/benchmark/statistics.ts:92-129 | min, median, p90, p95, p99 and max ascend, the mean lies between min and max, and the memory percentiles ascend. |
| Benchmarks.SuccessfulMeasuredByCoordinate | src/benchmark/statistics.ts:203-225 | The index holds each successful measured coordinate once, and fails exactly on repeated coordinates or unusable ones. |
| Benchmarks.CalculatePairedBaselineDelta | src/benchmark/statistics.ts:162-201 | Succeeds exactly when both sides have usable samples with distinct coordinates. Each delta occurs as often as there are pairs of a baseline and a candidate sample at one coordinate whose durations differ by it, candidate minus baseline; the fields are their number, their median, the baseline median and their ratio. |
| Benchmarks.PairingIgnoresOrder | src/benchmark/statistics.ts:162-201 | The delta does not depend on the order of either sample list. |
| StressPool.EveryRunKeepsInv | src/application/stress-test-command.ts:289-316 | In every interleaving, claims are the contiguous prefix, each once, and the findings are exactly the completed failing cases. |
| StressPool.PoolTerminates | src/application/stress-test-command.ts:289-316 | No schedule is longer than the case limit, and an unfinished pool can always step. |
| StressPool.FinishedReportsLeastClaimed | src/application/stress-test-command.ts:316-322 | Whatever stopped it, a finished pool reports the least failing claimed index, or null if none fails. |
| StressPool.FindingIsScheduleIndependent | src/application/stress-test-command.ts:289-327 | Undisturbed, any worker count and schedule report the least failing index of all cases, null exactly when none fails. |
| FixedCasePool.EveryRunKeepsInv | src/application/test-command.ts:418-447 | In every interleaving, claims are the contiguous prefix, each once, and a slot holds its own case's result or nothing. |
| FixedCasePool.PoolTerminates | src/application/test-command.ts:418-446 | Cancelled or not, no schedule is longer than the case list, and an unfinished pool can always step. |
| FixedCasePool.ResultsInSourceOrder | src/application/test-command.ts:446-447 | Even when cancelled, results are those of an ascending list of claimed cases. |
| FixedCasePool.OneResultPerCase | src/application/test-command.ts:418-447 | Undisturbed, a finished pool returns one result per case in source order. |
| FixedCasePool.AnyJobCount | src/application/test-command.ts:407-420 | ... for every accepted number of jobs. |

## Left out

- Mediator: targets are registration positions and run ids a counter; generations are unbounded; callbacks that re-enter the mediator are not modelled.
- WatchMediator.WatchMediator.Start: does nothing after a drain, where the source would observe again; a second life of a drained mediator is not modelled.
- CodecObject.EncodeNode: a refusal is `None`; messages, paths, and which of several faults is reported first are not modelled, here and in the builder.
- Detection of reference cycles in the encoder: values are acyclic by construction.
- CodecObject.BuildNode: requires a budget no larger than the default, because the source compares members of sets and dicts under a fresh default budget.
- The platform's `TextEncoder`, `TextDecoder` and `JSON.stringify` are modelled from the UTF-8 definition and from section 25.5.2.3 of ECMA-262; `Array.prototype.sort` by an insertion sort, whose result depends only on the elements.
- SemanticComparator.SemanticMismatch: reports the path only, without reasons and rendered values; tolerances and white-space normalisation are not modelled. A path is a list of steps, not yet a string.
- Adapters: the codec's dense `2i+1`/`2i+2` slot layout and the level-order layout differ in the source, and each is modelled under its own check. `tree_to_canonical` is given a finite tree.
- LinkedLists.BuildThenRead: requires a cycle index that `build_list` accepts; the error is in the contract of `BuildList`.
- FisherYates.PairedFisherYatesOrder: requires at most 2^64 implementations, as every JavaScript array has.
- The shortest round-trip digits of a float are Python's; the formatter takes them as given.
- Percentile positions are computed on integers, not on floating-point quotients.
- Parsing and formatting of seeds; the arithmetic of per-case seeds, an addition modulo 2^64.
- Pools: thrown errors, telemetry, shrinking of findings and the execution of a case, whose outcome is a function of its index.
- Process supervision, the file system, the database, the command line, reports and telemetry.
