# Verified models of the backend's protocols and small compilers

Dafny models of the parts of this repository whose correctness is hard to see, with proofs. `dafny verify dfyconfig.toml`
checks them all. Code that updates state step by step is modelled by methods and classes proved against a
specification; the properties are lemmas about the specification, over all inputs, all runs or all interleavings.

- **Single-flight cache** (`SingleFlight*.dfy`, `PerformanceCache.dfy`). `wrap` as a protocol of any number of callers
  over a store and a distributed lock. In every run values come from completed executions, `fn` starts only after a read
  that brought nothing, and hits are the reads that served a call; single flight holds under fourteen assumptions, none of which can be
  dropped; runs without errors end, with one execution. The service's methods let other calls in at every await and are
  proved to produce runs of the protocol only.
- **Datetime formats** (`FormatScan.dfy`, `LocalizedFormat.dfy`, `DatetimeFormat*.dfy`, `FormatTables.dfy`, `SqlText.dfy`,
  `SqlConcat.dfy`, `ParseGuard*.dfy`). The tokenizer and the scan of the parse guard are characterised by their rules,
  the generated text is read back and proved to mean the format, the printed guard is read back and proved exact, and
  what it accepts is said for whole formats of numbers.
- **Events** (`RawOps.dfy`, `EventFolding*.dfy`, `EventNetEffect.dfy`, `EventParents.dfy`, `GroupBy.dfy`,
  `EventGrouping.dfy`). Raw ops fold to one event per document with the net effect of the ops and the table they belong
  to; events group without loss, and by collection, kind of document and kind of change.
- **ShareDB history** (`ShareDbOps.dfy`, `ShareDbReplay.dfy`, `ShareDbRows.dfy`). The bulk path agrees with the single
  path, unless loading throws; two ops replay like the history they stand for, and bring a client to the stored version.
- **Nested transactions** (`Transactions.dfy`, `TransactionLaws.dfy`, `TransactionErrors.dfy`, `TransactionOverlap.dfy`,
  `PrismaServices.dfy`). Every program keeps its events in order and rolls back what an error leaves open.
- **Session tracking** (`SessionTracking.dfy`, `SessionCounts.dfy`, `WsGateway.dfy`), **row locks** (`RowLocks.dfy`),
  **order keys** (`OrderKeys.dfy`, `OrderedList.dfy`) and **escapers** (`LikeEscape.dfy`, `RegexText.dfy`,
  `RegexEscape.dfy`).

Some claims one might expect are false of the code. The model keeps the code and proves when the claim holds:

- Dropping any one of the fourteen assumptions of single flight admits a run that computes twice
  (`EveryAssumptionIsNeeded`).
- A release of the lock that fails makes a call served from the store read, and count, again (`HitsAreCallsIff`,
  `TwiceNeedsAFailedRelease`).
- A format with a doubled quote does not survive normalisation (`NormalizeRoundTripIff`).
- The parse guard of a format with names of months or weekdays rejects them (`GuardReadsNoNames`).
- A merged edit event says the old value of its last edit; that is the first one exactly if the field held the same
  value then (`OldValueIsTheFirstIff`).
- A folded event has the effect of the raw ops only if the builders keep what they write and create data is overwritten
  (`NetEffectIff`).
- One bad id, or a version query that throws, leaves the callback of a bulk request uncalled (`BulkIsSilentIff`).
- The versions of the synthesised ops have a hole when the gap exceeds two (`CollapseRefinesNaive`).
- A connection whose timer fires after its close is tracked for ever (`StaysTrackedIff`).
- A meta transaction inside a data transaction opens a second transaction on a shared database (`SecondOpensIff`); a
  request whose text has none is safe (`OneTransactionAtATime`).
- A retry after a shuffle that renumbers the anchor misplaces the item (`MoveOneBesideIff`, `StaleAnchorMisses`).

The grouping key of events is stronger than its shape suggests: event names hold no underscore, so table ids may.
The comments in the adapter say the placeholder advances a client to the current version; it carries the version the
client asked from, and the model follows the code.

## Model

| member | source | states |
|---|---|---|
| `SingleFlight.SafetyOverEveryRun` | apps/nestjs-backend/src/performance-cache/service.ts:316-399 | in every run of any number of `wrap` callers on one key, whatever fails: every value returned or stored came from a completed execution of `fn`, and a call starts `fn` at most twice, at most once if no lock error reached its catch block |
| `SingleFlight.SafeStep` | apps/nestjs-backend/src/performance-cache/service.ts:316-399 | the invariant behind it survives every event: reads, lock grants and refusals, aborts, completions, writes, releases that fail, lock expiry, eviction |
| `SingleFlightExact.SingleFlightTheorem` | apps/nestjs-backend/src/performance-cache/service.ts:327-366 | under fourteen assumptions on configuration and on what goes wrong, at most one caller is executing, at most one execution completes, nobody reaches the fallback, and every value returned is the completed one, a stored null included |
| `SingleFlightExact.CleanStep` | apps/nestjs-backend/src/performance-cache/service.ts:327-366 | the invariant of such runs: exactly the lock holder is between grant and release, and the one computed value is in the store or in the lock holder's hands |
| `SingleFlightNeeds.EveryAssumptionIsNeeded` | apps/nestjs-backend/src/performance-cache/service.ts:316-382 | each of the fourteen assumptions is needed: a run of two callers breaks that one alone and completes `fn` twice |
| `SingleFlightCompletion.SomeoneCanStep` | apps/nestjs-backend/src/performance-cache/service.ts:341-366 | no deadlock: while a call is unfinished in such a run, some event without an error can happen |
| `SingleFlightCompletion.QuietRunsComplete` | apps/nestjs-backend/src/performance-cache/service.ts:327-366 | a run without errors has at most seven events per call; when none is left, every call has returned the same value, computed once, with one write and a cache hit for each of the other calls |
| `SingleFlightReads.FnRunsOnlyOnMiss` | apps/nestjs-backend/src/performance-cache/service.ts:327-375 | in every run, whatever fails, `fn` is started only by one of the call's own reads, first, second or fallback, and only if at that moment the cache is off, the read is skipped or fails, or the store is empty; under the lock only if the lock is not lost |
| `SingleFlightReads.HitsAreServed` | apps/nestjs-backend/src/performance-cache/service.ts:125-149 | in every run the hits counted are the reads that ended their call with a value |
| `SingleFlightReads.HitsAreCallsIff` | apps/nestjs-backend/src/performance-cache/service.ts:125-149 | the hits counted are the calls ended by a value from the store if and only if no call is so ended twice |
| `SingleFlightReads.TwiceNeedsAFailedRelease` | apps/nestjs-backend/src/performance-cache/service.ts:367-377 | that takes a release of its lock that fails in between: it masks the value the call was about to return, and the call reads again |
| `SingleFlightReads.HitsAreCalls` | apps/nestjs-backend/src/performance-cache/service.ts:327-375 | so as long as no release fails every hit is a call of its own, which stays ended |
| `SingleFlightReads.FailedReleaseCountsTwice` | apps/nestjs-backend/src/performance-cache/service.ts:367-377 | a run of one call with two hits |
| `SingleFlightReads.EveryResultIsWritten` | apps/nestjs-backend/src/performance-cache/service.ts:387-399 | in every run each result of a call that may write has been written or is about to be, computed with the lock or without; a call that may not write never does |
| `SingleFlightReads.ReadMovesOneCounter` | apps/nestjs-backend/src/performance-cache/service.ts:125-149 | each of the three reads moves exactly one counter if it asks the store, and none if it does not |
| `SingleFlightReads.ResultIsWritten` | apps/nestjs-backend/src/performance-cache/service.ts:154-166 | a result is handed on if the cache is off or the write is skipped, an error for want of a ttl, and else on its way to the store, in every mode of execution |
| `SingleFlightReads.WriteKeepsTheValue` | apps/nestjs-backend/src/performance-cache/service.ts:167-178 | a write that works leaves the value in the store, one that fails leaves the store alone; the call ends with the value either way |
| `SingleFlightReads.FaultsAreRouted` | apps/nestjs-backend/src/performance-cache/service.ts:343-381 | a lock error leads to the back-off, any other error of the locked part is counted and rethrown, an error of `fn` without the lock is rethrown as it is, and a release that fails masks what the routine gave |
| `PerformanceCache.PerformanceCacheService.Get` | apps/nestjs-backend/src/performance-cache/service.ts:125-149 | the read gives the entry unless the cache is off, the read is skipped or fails, and moves exactly one counter, hits, misses or errors |
| `PerformanceCache.PerformanceCacheService.ExecuteAndCache` | apps/nestjs-backend/src/performance-cache/service.ts:387-399 | runs `fn` and writes what it gave; the caller ends where the protocol says, and everything that happened is a run of the protocol |
| `PerformanceCache.PerformanceCacheService.Cache` | apps/nestjs-backend/src/performance-cache/service.ts:154-179 | the write is skipped, refused for want of a ttl, or carried out; a missing ttl turns the result into an error |
| `PerformanceCache.PerformanceCacheService.Write` | apps/nestjs-backend/src/performance-cache/service.ts:167-178 | a failing store is counted and swallowed: the computed value is still the outcome |
| `PerformanceCache.PerformanceCacheService.Routine` | apps/nestjs-backend/src/performance-cache/service.ts:346-366 | under the lock: abort check, second read, abort check, execution, each step a step of the protocol |
| `PerformanceCache.PerformanceCacheService.Using` | apps/nestjs-backend/src/performance-cache/service.ts:343-367 | taking the lock, running the routine and giving the lock back settles the call as a value, a lock error that backs off, or a rethrown error |
| `PerformanceCache.PerformanceCacheService.GiveBack` | apps/nestjs-backend/src/performance-cache/service.ts:343-377 | a release that fails masks the result of the routine with a lock error |
| `PerformanceCache.PerformanceCacheService.FallBack` | apps/nestjs-backend/src/performance-cache/service.ts:369-377 | after a lock error the call reads once more and else executes without a lock |
| `PerformanceCache.PerformanceCacheService.Wrap` | apps/nestjs-backend/src/performance-cache/service.ts:316-382 | a call to `wrap`, with any interference at its awaits, is a run of the protocol that ends; what it returns some completed execution produced, and it started `fn` at most twice |
| `FormatScan.FindToken` | packages/formula/src/datetime-format-pg.ts:159-162 | `find` gives an entry of the table that starts the text, and nothing only if no entry does |
| `FormatScan.LongestMatch` | packages/formula/src/datetime-format-pg.ts:104-110 | on a table sorted longest first, what `find` picks is the unique longest entry that starts the text |
| `FormatScan.ScanSpells` | packages/formula/src/datetime-format-pg.ts:192-212 | the scan loses no character and invents none |
| `FormatScan.ScanIsTheSegmentation` | packages/formula/src/datetime-format-pg.ts:147-212 | the scan is the one and only sequence of items in which every token is the longest entry at its place, a single letter only without a letter beside it, and a plain character stands only where no such token can |
| `LocalizedFormat.ExpandWith` | packages/formula/src/datetime-format-pg.ts:155-181 | the expander's loop gives the scan's text with each macro replaced by its body |
| `LocalizedFormat.ExpansionIsDead` | packages/formula/src/datetime-format-pg.ts:7-18 | no L or l of an expansion is live again, whatever comes before it: bodies begin and end with letters and hold neither |
| `LocalizedFormat.ExpandIdempotent` | packages/formula/src/datetime-format-pg.ts:155-181 | expanding an expanded format changes nothing |
| `LocalizedFormat.NoMacroNoChange` | packages/formula/src/datetime-format-pg.ts:155-181 | a format without L and l is its own expansion |
| `DatetimeFormatMeaning.PiecesExpand` | packages/formula/src/datetime-format-pg.ts:155-181 | macros set apart by separators expand one by one |
| `DatetimeFormatMeaning.MacroFamilies` | packages/formula/src/datetime-format-pg.ts:7-18 | the longer formats add the time and then the weekday to the shorter ones; the small forms shorten names and drop padding |
| `DatetimeFormat.ForEachSupportedToken` | packages/formula/src/datetime-format-pg.ts:183-213 | reports the tokens and literal characters of the expanded format, in the order of the scan |
| `FormatTables.TablesAgree` | packages/formula/src/datetime-format-pg.ts:24-102 | the builders and the TO_CHAR table give every specifier the same template, except the five that are no plain TO_CHAR when a literal format is compiled |
| `DatetimeFormat.PushParts` | packages/formula/src/datetime-format-pg.ts:220-242 | the callbacks push one operand per token and one constant per stretch of literal characters |
| `DatetimeFormat.BuildFromLiteral` | packages/formula/src/datetime-format-pg.ts:215-249 | the generated text is these operands joined, or the empty constant if there are none |
| `DatetimeFormat.CompilerPreservesMeaning` | packages/formula/src/datetime-format-pg.ts:183-249 | for every rendering of tokens, the list of operands evaluates to the rendering of each token and each literal character of the expanded format, in order; buffering and quoting are invisible, the items spell the format and are its only segmentation |
| `DatetimeFormat.JoinedConstantReadsBack` | packages/formula/src/datetime-format-pg.ts:136-136 | in the joined text every quoted stretch is read back whole by PostgreSQL, which stops exactly at the next operator or the end |
| `DatetimeFormatText.BuilderIsClosed` | packages/formula/src/datetime-format-pg.ts:24-61 | the SQL of every token is one operand: no bar, quote or parenthesis of it runs into its neighbours, for every balanced datetime expression and every offset that stands by itself |
| `DatetimeFormatText.TextPreservesMeaning` | packages/formula/src/datetime-format-pg.ts:215-292 | the text built for a literal format, read back as a concatenation and evaluated operand by operand, is what each token's own SQL evaluates to and each literal character of the expanded format, in order |
| `DatetimeFormatMeaning.MissingFormatMeans` | packages/formula/src/datetime-format-pg.ts:251-259 | a missing or blank format means the default format |
| `DatetimeFormatMeaning.ConstantFormatMeans` | packages/formula/src/datetime-format-pg.ts:261-291 | a format that PostgreSQL reads as one constant means the text it denotes, or the default for an empty one |
| `DatetimeFormatMeaning.ExpressionFormatMeans` | packages/formula/src/datetime-format-pg.ts:284-287 | any other format is left to PostgreSQL as it stands, in a call of TO_CHAR that reads back as one operand |
| `DatetimeFormatMeaning.OffsetMeans` | packages/formula/src/datetime-format-pg.ts:57-58 | for an evaluator that knows REPLACE, ZZ is the offset without colons |
| `DatetimeFormatMeaning.WeekdayMeans` | packages/formula/src/datetime-format-pg.ts:39-40 | for one that knows LEFT, dd is the first two characters of ddd |
| `DatetimeFormatMeaning.MeridiemMeans` | packages/formula/src/datetime-format-pg.ts:59-60 | for one that knows LOWER, a is the lower case of A |
| `SqlText.QuoteReadsBack` | packages/formula/src/datetime-format-pg.ts:136-136 | a quoted text is read back whole and does not close early, whatever follows but a quote |
| `SqlText.ParseQuote` | packages/formula/src/datetime-format-pg.ts:136-145 | the source's reader of constants undoes its writer on every text |
| `SqlText.ParseAgreesWithPostgres` | packages/formula/src/datetime-format-pg.ts:138-145 | whatever PostgreSQL reads as one constant, the source's reader gives the same value for |
| `SqlText.UndoubledQuotes` | packages/formula/src/datetime-format-pg.ts:144-144 | undoubling loses quotes exactly when there is a pair of quotes, and else changes nothing |
| `DatetimeFormat.BuildDatetimeFormatSql` | packages/formula/src/datetime-format-pg.ts:279-292 | literal, empty, missing and non-literal formats take their own branches to the generated SQL |
| `DatetimeFormat.HasDatetimeTimezoneToken` | packages/formula/src/datetime-format-pg.ts:314-334 | null for a format that is no literal, else whether the scan reports Z or ZZ |
| `DatetimeFormatLaws.TimezoneNonInterference` | packages/formula/src/datetime-format-pg.ts:251-334 | the SQL built depends on the timezone offset if and only if `hasDatetimeTimezoneToken` is true |
| `DatetimeFormat.NormalizeDatetimeFormatLiteral` | packages/formula/src/datetime-format-pg.ts:264-277 | the normal form is the scan's text with each specifier replaced by its TO_CHAR template |
| `DatetimeFormatLaws.NormalizeRoundTripIff` | packages/formula/src/datetime-format-pg.ts:294-312 | normalising a quoted format and reading it back gives the normal form of the format it denotes if and only if the constant holds no doubled quote |
| `DatetimeFormatLaws.NormalizeRoundTripFails` | packages/formula/src/datetime-format-pg.ts:308-311 | a constant for which it does not |
| `ParseGuard.PrintLoop` | packages/formula/src/datetime-format-pg.ts:347-384 | the printer's loop prints the scanned items one after another between `^` and `.*$` |
| `ParseGuard.BuildDatetimeParseGuardRegex` | packages/formula/src/datetime-format-pg.ts:336-385 | no pattern for a format that is no literal, else the printed pattern of the normalised one |
| `ParseGuard.PatternReadsBack` | packages/formula/src/datetime-format-pg.ts:114-132 | reading the printed pattern as a regular expression recovers the items: digit classes, white space, escaped literals, FM, TM and TH gone |
| `ParseGuard.PatternExact` | packages/formula/src/datetime-format-pg.ts:347-384 | the pattern of any items accepts a text if and only if some prefix of the text splits into them |
| `ParseGuard.GuardIsExact` | packages/formula/src/datetime-format-pg.ts:336-385 | the guard of a format accepts exactly the texts with a prefix that splits into the items of the normalised format; there is a guard exactly when the format is a literal |
| `ParseGuardScan.GuardScanIsTheSegmentation` | packages/formula/src/datetime-format-pg.ts:349-380 | the guard's scan is the one and only sequence of items in which a field is the longest token that starts the rest in capitals, FM, TM or TH is skipped only where no token starts, and white space and a character of its own stand only where neither does |
| `ParseGuardFormats.PiecesNormalise` | packages/formula/src/datetime-format-pg.ts:294-312 | a format of specifiers set apart by separators is normalised specifier by specifier |
| `ParseGuardFormats.GuardOfPieces` | packages/formula/src/datetime-format-pg.ts:336-385 | its guard looks for what the template of each specifier alone gives, and for the separators, in order |
| `ParseGuardAccepts.NumberTemplates` | packages/formula/src/datetime-format-pg.ts:65-102 | the template of a numeric specifier is that of its family, with FM in front exactly for the unpadded one |
| `ParseGuardAccepts.GuardReadsNumbers` | packages/formula/src/datetime-format-pg.ts:114-132 | the guard of any format of numeric specifiers and meridiems set apart by separators accepts exactly the texts with a prefix that reads as these in order: two digits whether padded or not, four for YYYY, one to three for milliseconds |
| `ParseGuardAccepts.GuardReadsNoNames` | packages/formula/src/datetime-format-pg.ts:336-385 | the guard of a month name accepts exactly what starts with the letters Mon, that of a weekday name what starts with Da or D and a digit: no weekday name, and no month |
| `EventFolding.EventManager.MergeEventsForUpdate` | apps/nestjs-backend/src/event-emitter/event-emitter.service.ts:234-296 | a new document is entered; an edit of a record merges into its create or edit event; anything else replaces |
| `EventFolding.EventManager.GenerateEventsFromRawOps` | apps/nestjs-backend/src/event-emitter/event-emitter.service.ts:178-209 | the nested loops feed every op of every collection, in order, leaving out ops without a type |
| `EventFolding.OneEventPerDocument` | apps/nestjs-backend/src/event-emitter/event-emitter.service.ts:178-257 | each document with a typed op ends with one event, made from its own ops alone whatever else is in the batch; the events are listed once each |
| `EventParents.EventNamesParent` | apps/nestjs-backend/src/event-emitter/event-emitter.service.ts:211-225 | over whole batches, an event says the kind of change of the op it was last made from and names the collection of that op as its table; a table's event names itself |
| `EventParents.LastMadeFromOne` | apps/nestjs-backend/src/event-emitter/event-emitter.service.ts:239-256 | there is at most one such op: it starts an event, and every later op of the document adds to it |
| `EventParents.EventsComeInOrder` | apps/nestjs-backend/src/event-emitter/event-emitter.service.ts:178-209 | the events of a batch are in the order in which their documents come up |
| `EventFoldingLaws.FoldingRefinesApplication` | apps/nestjs-backend/src/event-emitter/event-emitter.service.ts:234-296 | a record's event has the type of its last reset, a create exactly the fields that the later edits leave, an edit for exactly the fields edited since the last change made, and applying the event has the effect of applying, as the op builders write them, all ops since the reset |
| `EventFoldingLaws.BatchEventRefinesOps` | apps/nestjs-backend/src/event-emitter/event-emitter.service.ts:167-209 | the same for whole batches with any number of documents interleaved |
| `EventFoldingLaws.NewValuesApply` | apps/nestjs-backend/src/event-emitter/event-emitter.service.ts:392-420 | the changes built from the ops of one edit, applied at once, do what the ops do one by one |
| `EventFoldingLaws.MergedOldValueIsNotTheFirst` | apps/nestjs-backend/src/event-emitter/event-emitter.service.ts:279-295 | an instance in which a merged edit does not say the old value from before the batch |
| `EventNetEffect.NetEffectIff` | apps/nestjs-backend/src/event-emitter/event-emitter.service.ts:234-296 | applying the event has the effect of the raw ops as they are, create data and unset fields included, if and only if no record results, or the last operation on each field inserts a value the builder keeps and every field a create brings is written again |
| `EventNetEffect.BatchNetEffectIff` | apps/nestjs-backend/src/event-emitter/event-emitter.service.ts:167-209 | the same for the event a whole batch gives a record |
| `EventNetEffect.OldValueIsTheFirstIff` | apps/nestjs-backend/src/event-emitter/event-emitter.service.ts:279-295 | when the ops tell old values truly, a merged edit says the value from before all its ops if and only if the field held that same value just before its last edit |
| `EventNetEffect.EditedOnceTellsTheFirst` | apps/nestjs-backend/src/event-emitter/event-emitter.service.ts:411-419 | it does for every field edited once |
| `EventGrouping.CombineEvents` | apps/nestjs-backend/src/event-emitter/event-emitter.service.ts:114-127 | one event goes out as it is; several as one bulk event with the items in order |
| `EventGrouping.Ops2Event` | apps/nestjs-backend/src/event-emitter/event-emitter.service.ts:85-101 | grouping and combining gives one output per key, in the order the keys came up |
| `EventGrouping.GroupKeyIsExact` | apps/nestjs-backend/src/event-emitter/event-emitter.service.ts:94-97 | two events share a group key if and only if they agree on table and event name, that is on table, kind of document and kind of change, whatever table ids contain |
| `EventGrouping.GroupingConserves` | apps/nestjs-backend/src/event-emitter/event-emitter.service.ts:93-160 | the payloads that go out are a permutation of those that came in, in order within each group, each group goes out once under its first event, and as bulk exactly when it has more than one event |
| `EventGrouping.BatchTablesApart` | apps/nestjs-backend/src/event-emitter/event-emitter.service.ts:211-225 | the condition for that holds for every batch: a table event carries its own id as its table |
| `EventParents.WhatGoesTogether` | apps/nestjs-backend/src/event-emitter/event-emitter.service.ts:85-127 | where each document belongs to one collection, two documents of a batch are told of by the same output if and only if they are fields, views or records alike, of one collection, with one kind of change |
| `ShareDbOps.GetOps` | apps/nestjs-backend/src/share-db/share-db.adapter.ts:342-478 | the callback is called once, with no ops, the whole document, the synthesised edits, or the error, that of a version query that throws included |
| `ShareDbOps.LoadSnapshots` | apps/nestjs-backend/src/share-db/share-db.adapter.ts:518-530 | loading in batches of any size gives every needed snapshot, and throws exactly if one of the ids makes the query throw |
| `ShareDbOps.GetOpsBulk` | apps/nestjs-backend/src/share-db/share-db.adapter.ts:480-562 | for any batch size, the callback is called once, with what `getOps` gives for each id or with an error, unless getting the versions or the snapshots throws; then it is not called |
| `ShareDbOps.GetVersionAndTypeMap` | apps/nestjs-backend/src/share-db/readonly/record-readonly.service.ts:111-130 | the versions of the ids that have a row; it throws exactly if the query does or one of the rows has a version below one |
| `ShareDbOps.BulkAgreesWithSingle` | apps/nestjs-backend/src/share-db/share-db.adapter.ts:532-561 | that result is every id's own if all are fine, else the error of the first id that has one; an id without a row gets no ops, and each id has its own bound |
| `ShareDbOps.BulkIsSilentIff` | apps/nestjs-backend/src/share-db/share-db.adapter.ts:490-530 | the bulk call leaves its callback uncalled exactly if the version query throws or `getOps` reports, for one of the ids, an error other than a missing document |
| `ShareDbReplay.CollapseRefinesNaive` | apps/nestjs-backend/src/share-db/share-db.adapter.ts:401-447 | at most two ops stand for the history: replayed they give the same document and version as one op per version, ending at the target version; their versions are consecutive exactly if the gap is at most two |
| `ShareDbReplay.ContentAgreesWithSnapshot` | apps/nestjs-backend/src/share-db/share-db.adapter.ts:564-598 | after the content op a client agrees with the snapshot on every key the op writes and keeps everything else: all record fields, table and field properties but `id` and nulls, nothing of a view |
| `ShareDbReplay.EmptyComponentIff` | apps/nestjs-backend/src/share-db/share-db.adapter.ts:574-594 | the content op holds a component that sets nothing exactly if the snapshot of a table or field has a null property other than `id` |
| `ShareDbReplay.ClientCatchesUp` | apps/nestjs-backend/src/share-db/share-db.adapter.ts:342-447 | what is sent for an edited document brings a client that is not ahead to the version after the current one with the content of the snapshot, and leaves a client that is ahead alone |
| `ShareDbReplay.CreateReplays` | apps/nestjs-backend/src/share-db/share-db.adapter.ts:388-399 | a document still at its creation is sent whole |
| `ShareDbRows.RowCatchesUp` | apps/nestjs-backend/src/share-db/readonly/readonly.service.ts:21-41 | a client behind the stored version n of an edited document is brought to exactly n with the content of the snapshot; a client at n or beyond gets no ops |
| `ShareDbRows.RowIsSentWhole` | apps/nestjs-backend/src/share-db/readonly/readonly.service.ts:37-39 | a document at version one is sent whole to a client that has nothing of it, and not at all to one at one or beyond |
| `ShareDbRows.BoundIsKept` | apps/nestjs-backend/src/share-db/share-db.adapter.ts:401-447 | with an upper bound, a client behind both bound and stored version ends at the nearer of the two; any other client gets no ops |
| `ShareDbRows.FailsIff` | apps/nestjs-backend/src/share-db/share-db.adapter.ts:323-386 | which error is reported exactly when, and no ops without a row, for a deleted one and for a client that is not behind |
| `ShareDbRows.BulkCatchesUp` | apps/nestjs-backend/src/share-db/share-db.adapter.ts:480-562 | a bulk request that succeeds brings the client of every present document without an upper bound to its stored version and not beyond |
| `WsGatewayService.WsGateway.HandleConnection` | apps/nestjs-backend/src/ws/ws.gateway.ts:59-97 | an opened connection is active and counted, or counted as an error and not active when setting it up throws |
| `WsGatewayService.WsGateway.UserBindingFires` | apps/nestjs-backend/src/ws/ws.gateway.ts:102-112 | the timer binds the connection if the agent has a user by then, else nothing changes |
| `WsGatewayService.WsGateway.HandleUserConnect` | apps/nestjs-backend/src/ws/ws.gateway.ts:114-126 | the metadata names the user, the user's set gets the connection, and the first one starts a session |
| `WsGatewayService.WsGateway.HandleClose` | apps/nestjs-backend/src/ws/ws.gateway.ts:68-76 | a close takes the connection out of the active ones and out of its user's set |
| `WsGatewayService.WsGateway.HandleUserDisconnect` | apps/nestjs-backend/src/ws/ws.gateway.ts:128-157 | with and without metadata, the last connection of a user takes the user out and ends the session |
| `WsGatewayService.WsGateway.GetActiveUserCount` | apps/nestjs-backend/src/ws/ws.gateway.ts:196-198 | the users counted are the sessions started and not ended |
| `WsGatewayService.WsGateway.GetUserConnectionCount` | apps/nestjs-backend/src/ws/ws.gateway.ts:200-202 | the connections counted are those bound to the user that have not closed since |
| `SessionTracking.TrackingOverEveryHistory` | apps/nestjs-backend/src/ws/ws.gateway.ts:59-157 | after every interleaving of opens, timers and closes: a connection is in a user's set exactly if its metadata names that user, no set is empty, the sizes sum to the number of metadata entries, starts minus ends is the number of users, and a connection is tracked for a user exactly if it was bound to that user and has not closed since |
| `SessionTracking.BindKeepsLinkedIff` | apps/nestjs-backend/src/ws/ws.gateway.ts:114-126 | a bind keeps sets and metadata in step if and only if it does not move a tracked connection to another user |
| `SessionTracking.CloseWithoutMeta` | apps/nestjs-backend/src/ws/ws.gateway.ts:132-144 | closing a connection without metadata leaves all user sets alone, whatever user its agent names |
| `SessionTracking.ActiveConnections` | apps/nestjs-backend/src/ws/ws.gateway.ts:62-96 | the active connections are those opened without an error and not closed since |
| `SessionCounts.SessionsCounted` | apps/nestjs-backend/src/ws/ws.gateway.ts:114-157 | a session starts with the callback that makes a user active and ends with the one after which they no longer are, and no other callback counts |
| `SessionCounts.ConnectionsCounted` | apps/nestjs-backend/src/ws/ws.gateway.ts:62-96 | opened connections, closes and failed setups are counted once each |
| `SessionCounts.MetadataAreTheBind` | apps/nestjs-backend/src/ws/ws.gateway.ts:114-115 | the metadata of a connection are the user and the time of its bind |
| `SessionTracking.StaysTrackedIff` | apps/nestjs-backend/src/ws/ws.gateway.ts:102-112 | a closed connection is still tracked if and only if its timer fired, and found a user, after the close |
| `SessionTracking.TrackedForGood` | apps/nestjs-backend/src/ws/ws.gateway.ts:102-157 | and then it stays tracked whatever happens next |
| `SessionTracking.ClosedBeforeBound` | apps/nestjs-backend/src/ws/ws.gateway.ts:68-112 | such a history: open, close, and only then the timer; the session never ends |
| `PrismaServices.Prisma.BindAfterTransaction` | packages/db-main-prisma/src/prisma.service.ts:90-92 | binds the callback of a service |
| `PrismaServices.Prisma.MetaTxClient` | packages/db-main-prisma/src/prisma.service.ts:144-153 | the ambient meta transaction or the service itself |
| `PrismaServices.Prisma.DataTxClient` | packages/db-data-prisma/src/prisma.service.ts:131-143 | the ambient data transaction, else on a shared database the ambient meta one, else the service itself |
| `PrismaServices.Prisma.MetaTx` | packages/db-main-prisma/src/prisma.service.ts:102-142 | `$tx` does what the enclosing transactions say, and the store is afterwards as it was, on return and on throw |
| `PrismaServices.Prisma.DataTx` | packages/db-data-prisma/src/prisma.service.ts:86-129 | the same for the data service, which joins a meta transaction on a shared database |
| `PrismaServices.Prisma.Execute` | packages/db-main-prisma/src/prisma.service.ts:102-153 | a whole request, with any nesting of both services, failures, catches and callbacks, has the meaning its nesting gives it and leaves the store as it was |
| `Transactions.ProgramsKeepOrder` | packages/db-main-prisma/src/prisma.service.ts:102-153 | for every program and starting point: a body is called with the client `txClient()` gives inside it, a transaction opens only where no ambient client applies, commits and rollbacks close the innermost one, a bound callback follows its commit at once, nothing stays open, and the program throws exactly if it leaves an error in flight |
| `TransactionLaws.CallbackAfterCommit` | packages/db-main-prisma/src/prisma.service.ts:138-138 | a callback runs right after the commit of an opened transaction whose service has one bound by then, and nowhere else |
| `TransactionLaws.EndsOnce` | packages/db-main-prisma/src/prisma.service.ts:124-137 | a transaction that has ended neither ends nor opens again |
| `TransactionLaws.CommittedIff` | packages/db-main-prisma/src/prisma.service.ts:123-141 | a transaction opened for a call commits exactly if it opens, its body returns and the database commits; the call returns exactly if it commits and its callback, if one is bound, returns |
| `TransactionLaws.EveryOpenedEnds` | packages/db-main-prisma/src/prisma.service.ts:124-137 | every transaction opened is committed or rolled back |
| `TransactionErrors.OnlyRollbacksUntilCaught` | packages/db-main-prisma/src/prisma.service.ts:111-141 | from the moment an error is raised until it is caught nothing happens but rollbacks |
| `TransactionErrors.OnlyTryCatches` | packages/db-main-prisma/src/prisma.service.ts:111-141 | no `$tx`, joining or opening, catches an error: only the program's own `catch` does |
| `TransactionErrors.UncaughtRollsBack` | packages/db-data-prisma/src/prisma.service.ts:86-129 | an error nobody catches, however deep in nested calls, makes the request throw; every transaction open at that moment is rolled back, and nothing is committed any more |
| `TransactionErrors.FirstErrorIsFinal` | packages/db-data-prisma/src/prisma.service.ts:86-129 | a program without a `catch` throws at its first error and does nothing after it but roll back |
| `TransactionErrors.ThrowsIff` | packages/db-main-prisma/src/prisma.service.ts:102-142 | a request throws exactly if its last event but for rollbacks raised an error: a throw, a transaction that did not open or commit, or a callback that threw |
| `TransactionLaws.NestedAt` | packages/db-data-prisma/src/prisma.service.ts:86-113 | no service has two transactions open at once; on a shared database two are open only if a meta one was started inside a data one |
| `TransactionLaws.MetaInsideDataOpensSecond` | packages/db-data-prisma/src/prisma.service.ts:100-103 | a data transaction directly inside a meta one joins it; the other way round a second transaction opens on the same database |
| `TransactionOverlap.OverlapIffReached` | packages/db-data-prisma/src/prisma.service.ts:86-129 | a program opens a transaction while another one is open if and only if it reaches a `$tx` to which no ambient client applies, inside an open transaction, and the database lets it open |
| `TransactionOverlap.OneTransactionAtATime` | packages/db-data-prisma/src/prisma.service.ts:95-103 | on a shared database a program without a meta `$tx` under a data one with no meta one around it, which its text shows, never opens a transaction while another is open |
| `TransactionOverlap.SecondOpensIff` | packages/db-main-prisma/src/prisma.service.ts:111-124 | on a shared database a call inside an open transaction opens a second one if and only if it is a meta one, a data transaction is open, no meta one is, and the database lets it |
| `RowLocks.NonEmpty` | apps/nestjs-backend/src/db-provider/postgres.provider.ts:530-532 | exactly the non-empty ids are kept |
| `RowLocks.Distinct` | apps/nestjs-backend/src/db-provider/postgres.provider.ts:530-532 | every id is kept once |
| `RowLocks.LockOrderIsCanonical` | apps/nestjs-backend/src/db-provider/postgres.provider.ts:529-543 | the lock order is the one ascending list of the non-empty ids asked for, the same for the same set of ids; there is none exactly if no id is non-empty |
| `RowLocks.OrderedLockingCannotDeadlock` | apps/nestjs-backend/src/db-provider/postgres.provider.ts:524-543 | whatever strict order the server keeps its ids in, any number of transactions that lock the rows of one such query each never wait in a circle; until all have ended somebody can step, and they end after a fixed number of steps whoever steps |
| `RowLocks.LockOrderLocks` | apps/nestjs-backend/src/db-provider/postgres.provider.ts:536-542 | the order of the query itself, by code units, is one such order |
| `RowLocks.OppositeOrdersDeadlock` | apps/nestjs-backend/src/db-provider/postgres.provider.ts:536-542 | without the common order two transactions can lock each other out |
| `OrderKeys.Nearest` | apps/nestjs-backend/src/utils/update-order.ts:29-32 | `getNextItem`: the nearest order strictly on the requested side, none exactly if there is none |
| `OrderKeys.NarrowMeans` | apps/nestjs-backend/src/utils/update-order.ts:40-40 | when a gap is too narrow for a move of one or of several items |
| `OrderKeys.ShufflesUntilWide` | apps/nestjs-backend/src/utils/update-order.ts:40-45 | there are `k` shuffles exactly if the list is too narrow before each and wide enough after the last |
| `OrderKeys.OneLands` | apps/nestjs-backend/src/utils/update-order.ts:34-46 | one moved item lands on the requested side, halfway to the nearest neighbour or exactly one away where there is none; all others stay |
| `OrderKeys.KeysAreEven` | apps/nestjs-backend/src/utils/update-order.ts:86-99 | the keys of several items ascend strictly between the anchor's and its neighbour's and cut the space into equal parts; where there is no neighbour the space is a whole step |
| `OrderKeys.ManyLand` | apps/nestjs-backend/src/utils/update-order.ts:86-101 | several moved items get these keys in order, between anchor and neighbour; all others stay |
| `OrderKeys.BesideAnchorIff` | apps/nestjs-backend/src/utils/update-order.ts:28-47 | what is placed by the order passed ends up right beside the anchor if and only if the anchor is not beyond that order and nothing lies between the two |
| `OrderKeys.MoveOneLands` | apps/nestjs-backend/src/utils/update-order.ts:28-47 | if shuffles leave the anchor's order alone the moved item ends up right beside the anchor, after at most one shuffle if the first leaves a wide enough gap |
| `OrderKeys.MoveManyLands` | apps/nestjs-backend/src/utils/update-order.ts:80-101 | the same for several items |
| `OrderKeys.MoveOneBesideIff` | apps/nestjs-backend/src/utils/update-order.ts:28-47 | for a whole move, whatever the shuffles do: the moved item is right beside the anchor's current order if and only if, in the list updated, the anchor is not beyond the order passed and nothing lies between the two |
| `OrderKeys.MoveManyBesideIff` | apps/nestjs-backend/src/utils/update-order.ts:80-101 | the same for several items |
| `OrderKeys.StaleAnchorMisses` | apps/nestjs-backend/src/utils/update-order.ts:40-45 | at any threshold up to one, a shuffle that renumbers the anchor defeats the move: the retry uses the old order |
| `OrderedLists.OrderedList.UpdateOrder` | apps/nestjs-backend/src/utils/update-order.ts:16-47 | the recursion over shuffles leaves the list the move specifies, or is still waiting for a wide enough gap |
| `OrderedLists.OrderedList.UpdateMultipleOrders` | apps/nestjs-backend/src/utils/update-order.ts:68-102 | the same for several items |
| `LikeEscape.EscapedMatchesItself` | apps/nestjs-backend/src/utils/sql-like-escape.ts:4-7 | the escaped text of s matches t if and only if t is s |
| `LikeEscape.WrappedMatchesOccurrences` | apps/nestjs-backend/src/utils/sql-like-escape.ts:4-7 | between percent signs it matches t if and only if s occurs in t |
| `RegexEscape.JsonbDecodesToRegex` | apps/nestjs-backend/src/utils/postgres-regex-escape.ts:29-48 | read as a jsonpath string literal the jsonb escape is the regular-expression escape; the literal does not close early |
| `RegexEscape.EscapedMatchesOccurrences` | apps/nestjs-backend/src/utils/postgres-regex-escape.ts:13-21 | as a pattern the escaped text of s matches t if and only if s occurs in t |
| `RegexEscape.AnchoredMatchesExactly` | apps/nestjs-backend/src/utils/postgres-regex-escape.ts:13-21 | between `^` and `$` it matches s and nothing else |

## Left out

- DatetimeFormatText.TextPreservesMeaning: what an operand other than a constant evaluates to is an uninterpreted function of its text; the datetime expression has to be balanced in parentheses and single quotes, and the offset to stand by itself, where quoted identifiers with such characters in them, escape strings and comments are read as plain text.
- ParseGuard.GuardIsExact: which characters count as digits and white space is a parameter, as is the upper-case mapping, taken one character at a time.
- ParseGuardAccepts.GuardReadsNumbers: specifiers that stand beside each other or beside letters are covered by the laws of the two scans only.
- DatetimeFormatMeaning.OffsetMeans: REPLACE, LEFT and LOWER are known to the evaluator in the shapes the builders write only.
- PerformanceCache.PerformanceCacheService.Wrap: one cache key; interference at an await is any run of the protocol that leaves the waiting call alone but for its abort signal.
- ShareDbOps.GetOpsBulk: the rejection of the call itself, when its callback is not called, is not a result of the model.
- ShareDbReplay.ContentAgreesWithSnapshot: the replay assumes that a client ignores an op component with neither an inserted nor a deleted value, as null properties give (EmptyComponentIff); a json0 client may reject it.
- EventFoldingLaws.FoldingRefinesApplication: for records, with values as the op builders write them (NetEffectIff says when that is what the raw ops do); documents of other types keep their last event unmerged.
- OrderKeys.MoveOneLands: over real numbers, with a positive threshold for `Number.EPSILON * 2`; rounding of IEEE floats is not modelled, and a move that needs more shuffles than are given has not ended.
- RowLocks.OrderedLockingCannotDeadlock: one query per transaction; rows that do not exist are not locked, and locks taken by other statements are not modelled.
- Transactions.ProgramsKeepOrder: one branch at a time; parallel branches that share the CLS store, transaction timeouts while a body still runs, ids, time stamps and options of transactions are not modelled.
- SessionTracking.TrackingOverEveryHistory: `onModuleDestroy`, which clears the maps without ending sessions, is not among the events.
- RegexEscape.JsonbDecodesToRegex: numeric escapes of jsonpath string literals, which the escaper never emits, are not read.
- RegexText reads the part of the regular-expression syntax that the source prints; alternation, groups and back references are outside it.
- Redis, Keyv, Redlock, Prisma, ShareDB, SockJS and the event emitter appear as contracts only; ttl expiry is an eviction.
- `mget`, `mset`, `del` and the per-type statistics of the cache: single operations without the protocol's difficulty.
- Random `src` values, wall-clock time, logging and metrics other than the counters named above.
- Splitting a collection name into type and id, auth headers and the CLS context of the ShareDB adapter.
- The op builders themselves: what the record, field and table builders make of a value is written into the model; their code is not part of it.
- Strings are sequences of characters; surrogate pairs and arguments that are not strings are not modelled.
- `updateFromSelectSql` and the rest of the PostgreSQL provider, the formula parser and its visitors, keyset paging, hashing and retry helpers.
