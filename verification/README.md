# Verification of the engine's algorithmic core

A Dafny model of five parts of this Go repository, with proofs of what each part is for.

1. **Numbers in fact verification** (`DecimalText.dfy`, `NumberForms.dfy`, `GroupedNumbers.dfy`, `FactVerify.dfy`). A
   number token is split into digit groups, read as a thousands-grouped, decimal or version literal, and compared by
   canonical string. The canonical string is proved to be a complete normal form for the rational value, and coverage
   of one token list by another is proved to be coverage by value, thousands grouping included.
2. **Search fan-out, block cache, escalation, budget, parallel fetch** (`Collect.dfy`, `FanOut.dfy`, `FanOutRuns.dfy`,
   `BlockCache.dfy`, `Escalation.dfy`, `EscalationRuns.dfy`, `SearchDirect.dfy`, `Marginalia.dfy`,
   `ParallelFetch.dfy`). The goroutine protocols are step systems: a state, the steps each goroutine may take, and
   lemmas about every sequence of steps. The fan-out and the escalation share the cache in `SearchDirect.dfy`. The cache
   and the budget are classes. Clock readings, source replies, context causes and panics are inputs.
3. **Ranking and near-duplicates** (`Fusion.dfy`, `FusionPlaces.dfy`, `Sorting.dfy`, `Totals.dfy`, `Dedup.dfy`,
   `WordVectors.dfy`, `CosineLaws.dfy`). Reciprocal rank fusion against a plain double sum and by the places of its
   input, the pairwise sweep for any similarity, and cosine similarity with its Cauchy-Schwarz bound and the exact
   cases of one and zero.
4. **Chunking** (`Chunker.dfy`, `ChunkOverlap.dfy`). The moving window, its backward search for a space, the overlap and
   the progress clamp, and what neighbouring chunks share after trimming.
5. **Token budgets and UTF-8** (`Utf8.dfy`, `Tokens.dfy`, `SourcesText.dfy`, `SourceBlocks.dfy`). Well-formedness by
   sections 3 and 4 of RFC 3629, the two rune-boundary cuts, token estimates, and the ranked budget of the sources
   block.

Loops and objects are methods and classes proved against specification functions (`Run`, `Fold`, `WebFused`, `Sweep`,
`ChunksOf`, `Budgeted`, `Sections`); the properties are lemmas about those functions. `dafny verify dfyconfig.toml`
checks everything. `SearchTypes.dfy`, `Texts.dfy` and `RealFacts.dfy` hold what several models share.

## Where the code and its comments differ

- `fetch/blockcache.go` calls its eviction oldest-first. An expiry observed by `IsBlocked` leaves a stale entry in
  `order` (lines 55-58), after which the newest host can be evicted first: `BlockCache.StaleEntryOvertakes` is the run,
  `BlockCache.EvictsOldestUnlessOvertaken` the exact condition, and `BlockCache.MarkThenUnmark` the exact condition for
  `Unmark` to restore `order` (`BlockCache.UnmarkTakesStaleEntry` is a run where it does not). The comment at line 97
  bounds the length of `order` by the capacity; that too fails after observed expiries: `BlockCache.OrderOutgrows`, and
  exactly when in `BlockCache.OrderWithinCapacity`.
- The daily cap of `search/marginalia.go` can fail when the day of the clock goes back: `Marginalia.ClockGoingBack` is a
  run that grants a day twice, `Marginalia.DailyCapExactly` the exact condition for any clock.
- `text/chunker.go:55-56` says that `NeedsChunking` reports texts that give several chunks. It looks at the untrimmed
  text: `Chunker.PaddedText` is the input, and `Chunker.MoreThanOneChunk` says exactly when it is right, for
  chunkSize >= 1 and overlap >= 0.
- `text/chunker.go:13-14` and 29-31 promise `overlap` shared runes between neighbouring chunks. Two things take some
  away. A cut at a space skips the space: `Chunker.SpaceEatsOverlap` is the input. Trimming takes spaces off the edges:
  `ChunkOverlap.TrimEatsOverlap` is the input. `ChunkOverlap.SharedRunes` gives the number shared in every case, and
  `ChunkOverlap.OverlapKeptExactly` the exact condition.
- Chunking covers the text only for chunkSize >= 1 and overlap >= 0, which the constructor does not enforce:
  `Chunker.LosingText` and `Chunker.NeverLosesExactly`.
- `websearch/dedup.go:9-11` says that of two results over the threshold the one with the lower score is removed. It
  survives when the better one has been removed itself: `Dedup.DuplicateSurvives` is the input,
  `Dedup.WorseRemovedExactly` the exact condition.
- `text.TruncateToTokenBudget` and `webtext.Truncate` treat a byte limit of 0 differently: `Tokens.ZeroLimit` is
  the input, `Tokens.CutsAgree` the exact condition.
- `llm/summarize.go:97` calls the budget a total. Rounding up can exceed it by four tokens:
  `SourcesText.FiveTokensForOne` is the input, `SourcesText.TotalKeptExactly` the exact condition.

## Model

| member | source | states |
|---|---|---|
| `DecimalText.CanonicalComplete` | llm/factverify.go:300-322 | `canonicalNumber` is a complete normal form: for any two optionally signed decimal strings with at most one point, the outputs are the same string if and only if the rational values are equal |
| `DecimalText.CanonicalKeepsValue` | llm/factverify.go:300-322 | the rendered string denotes the same rational number as the input and has canonical shape (no superfluous zero, no negative zero) |
| `DecimalText.CanonicalUnique` | llm/factverify.go:297-299 | two strings of canonical shape with the same value are the same string, over unbounded digit strings |
| `DecimalText.CanonicalIdempotent` | llm/factverify.go:297-322 | rendering twice changes nothing; "-0" is never produced, and zero is rendered "0" and nothing else is |
| `NumberForms.SplitNumberToken` | llm/factverify.go:274-284 | the loop returns the digit groups and separators of the specification `Split` |
| `NumberForms.SplitRoundTrip` | llm/factverify.go:272-284 | joining the groups with the separators gives the token back; separators are exactly the three separator characters and no group contains one |
| `NumberForms.AllThreeDigit` | llm/factverify.go:288-295 | true if and only if every group has exactly three digits, the number written out |
| `NumberForms.FormsOf` | llm/factverify.go:195-200 | the `have` set holds a form if and only if some quoted token has it |
| `NumberForms.FormsAreSpellings` | llm/factverify.go:243-262 | the forms of a token are exactly the canonical spellings of its possible readings (thousands-grouped integer, decimal, or literal version), readings being defined without any rendering |
| `NumberForms.VersionNeverCanonical` | llm/factverify.go:240-241 | a version literal is never equal to a canonical number |
| `NumberForms.SharedFormIsSharedReading` | llm/factverify.go:182-189 | two tokens have a form in common if and only if they share a reading: an equal signed rational value, or the identical version literal |
| `NumberForms.FormsCovered` | llm/factverify.go:190-214 | the two loops over the `have` set decide, for any way of listing forms, whether every needed token has a form in common with some quoted token |
| `NumberForms.NumbersCovered` | llm/factverify.go:190-214 | for any token lists, coverage holds if and only if every needed token shares a reading with some quoted token |
| `GroupedNumbers.GroupedShape` | llm/factverify.go:31-35 | the groups of a number written with a separator before every third digit from the right are three digits each after the first, and its digits are the number's |
| `GroupedNumbers.ReadingsExactly` | llm/factverify.go:231-262 | a token denotes the integer of its digits if and only if every group after the first has three digits, and the decimal with its last separator as the mark if and only if that is no space and the groups between the first and the last have three (the two values can also coincide: all digits zero, or nothing after the last separator); it is a version literal if and only if neither holds |
| `GroupedNumbers.GroupedCovers` | llm/factverify.go:182-189 | a plain integer and a grouped one, each with or without a minus and grouped with a comma, dot or space, cover each other if and only if they are the same number, or the grouped one has more than three digits, not grouped with spaces, and is a thousand times the plain one, its last separator reading as a decimal mark |
| `GroupedNumbers.GroupedDecimal` | llm/factverify.go:231-242 | a grouped integer part, a dot or comma and decimals denote the number of the plain spelling, and the two cover each other |
| `FactVerify.BlocksFollow` | llm/factverify.go:168-173 | in a disjoint union of blocks of ten digits, adjacent blocks allowed, a run of digits from a block start consists of whole blocks |
| `FactVerify.NdDigitValue` | llm/factverify.go:174-180 | the backward loop ends and returns the offset of the digit in its block of ten |
| `FactVerify.FactNormalizeRune` | llm/factverify.go:147-166 | every decimal digit of any script becomes the ASCII digit of the same value; of the other runes exactly those listed change, each into a quote, a hyphen, the letter without diaeresis, a space or nothing |
| `FactVerify.TokenAt` | llm/factverify.go:223-226 | the token of one match, signed exactly when a minus precedes it that no digit precedes |
| `FactVerify.FactNumberTokens` | llm/factverify.go:219-230 | one token per match, in order, whose body is the matched text and which is negative exactly when a minus precedes it that no digit precedes |
| `FactVerify.RangeOrSign` | llm/factverify.go:216-226 | a minus between a digit and a number makes no sign, as in a range; after anything else, or at the start of the text, it is the number's sign |
| `FactVerify.TokensUnique` | llm/factverify.go:216-230 | the text and the matches determine the tokens, so the contract of the extraction leaves nothing open |
| `FactVerify.FactNumbersCovered` | llm/factverify.go:190-214 | the numbers of the normalised point are covered by those of the normalised quote, for the tokens the spans determine |
| `FactVerify.VerifyFact` | llm/factverify.go:96-128 | status and reason are those of the first check that fails, stated with quantifiers over the cited sources rather than over the prepared haystacks; the fact is verified if and only if its quote is long enough, occurs in a cited source and covers every number of the point |
| `FactVerify.VerifyFacts` | llm/factverify.go:67-91 | every fact of the array gets its own verdict in place, and no other field changes |
| `FactVerify.VerifiedMeansSupported` | llm/factverify.go:57-66 | a fact is verified if and only if its quote is not blank, is long enough, occurs in a cited source that has text, and covers every number of the point; a reason is given exactly when it is held |
| `FactVerify.HeldFor` | llm/factverify.go:93-128 | each of the five reasons is given if and only if its condition fails and those before it hold, and "verified" if and only if all five hold; what is searched for the quote is the fetched content of a cited source, or its snippet when nothing was fetched |
| `BlockCache.DirectBlockCache.constructor` | fetch/blockcache.go:31-42 | an empty cache with positive capacity, ten minutes and 1024 hosts replacing a time to live or capacity that is not positive |
| `BlockCache.DirectBlockCache.IsBlocked` | fetch/blockcache.go:47-60 | answers whether the host is marked and not expired; an expired entry leaves `items` but not `order` |
| `BlockCache.DirectBlockCache.Mark` | fetch/blockcache.go:64-82 | the state becomes that of `AfterMark`: eviction at capacity for a new host, a fresh deadline in any case |
| `BlockCache.DirectBlockCache.Unmark` | fetch/blockcache.go:90-104 | the host leaves `items`, and its first entry leaves `order` |
| `BlockCache.DirectBlockCache.Len` | fetch/blockcache.go:106-111 | the number of hosts that have a live entry in `order`, each counted once whatever stale or repeated entries there are, and at most the capacity |
| `BlockCache.DirectBlockCache.EvictOldest` | fetch/blockcache.go:114-123 | the loop drops stale entries and removes the first live one, as `AfterEviction` says |
| `BlockCache.RunSound` | fetch/blockcache.go:16-29 | after every sequence of operations, expiry included, every marked host is listed in `order` and at most `cap` hosts are marked |
| `BlockCache.EvictionRemovesOne` | fetch/blockcache.go:112-123 | called at capacity, eviction removes exactly one live entry, the first live one in `order` |
| `BlockCache.RefinesQueue` | fetch/blockcache.go:16-29 | while no expired entry has been observed, `order` is exactly the state of a duplicate-free bounded first-in first-out queue run on the same operations |
| `BlockCache.HistoryIsRemembered` | fetch/blockcache.go:46-104 | after every run, whatever the clock, a host is marked only if some Mark of it survives, with the deadline of the last one; where a surviving Mark is no longer recorded, the clock has been read past its deadline |
| `BlockCache.BlockedIffRecentlyMarked` | fetch/blockcache.go:44-60 | with a clock that never goes back, `IsBlocked` answers yes if and only if the last `Mark` of the host is within the time to live with no later `Unmark` or eviction of it |
| `BlockCache.LastEntriesAreInsertions` | fetch/blockcache.go:18-25 | after every run the live hosts, each at its last entry in `order`, are the live hosts in order of insertion |
| `BlockCache.EvictsOldestUnlessOvertaken` | fetch/blockcache.go:112-123 | eviction at capacity takes the host live longest if and only if no stale entry lets a younger host overtake in `order` |
| `BlockCache.StaleEntryOvertakes` | fetch/blockcache.go:55-58 | a concrete run in which the newest host is evicted first, because of a stale entry left by an observed expiry |
| `BlockCache.MarkThenUnmark` | fetch/blockcache.go:90-104 | below capacity `Unmark` undoes the `Mark` of a new host: `items` always, `order` if and only if no stale entry of the host stands before another host |
| `BlockCache.UnmarkTakesStaleEntry` | fetch/blockcache.go:90-104 | a concrete run after which `Unmark` of a freshly marked host removes an older stale entry and leaves `order` changed |
| `BlockCache.OrderOutgrows` | fetch/blockcache.go:78-97 | cycles of marking and observed expiry make `order` longer than any bound while nothing is marked |
| `BlockCache.OrderWithinCapacity` | fetch/blockcache.go:64-76 | `Mark` keeps `order` within the capacity if and only if the host is marked already, the cache is full, or `order` still has room |
| `Collect.HandleSourceError` | search/direct.go:463-496 | the outcome of an error by its class, and the cache marked for exactly the outcomes captcha, timeout and blocked |
| `Collect.CollectOne` | search/direct.go:533-573 | one turn of the loop: the rule for a single delivery, and at most one mark, of that delivery's label |
| `Collect.CollectResults` | search/direct.go:529-575 | the loop over the arrivals computes the fold of the single-delivery rule and applies the marks to the shared cache in order |
| `Collect.CollectPipelineResults` | pipeline/search.go:123-150 | the loop of the pipeline collector computes the same fold under its own rules |
| `Collect.FoldOutput` | search/direct.go:533-574 | the output is the OK results concatenated in arrival order, the marks are the labels of the marking errors, and each delivery has one outcome |
| `Collect.EachDelivery` | search/direct.go:530-573 | each delivery adds one outcome, fixed by the class of its error, the allow-list and its results, and appends exactly its results to the output so far when it has no error |
| `Collect.OutcomesExact` | search/direct.go:444-496 | place by place, the recorded outcomes are those of the deliveries: shed, captcha, timeout, blocked and fail each if and only if the error is of that class |
| `Collect.FoldStats` | search/direct.go:523-565 | Attempted + Shed is the number of deliveries, Attempted = OK + Empty + Failed, and each counter counts the deliveries of its kind |
| `Collect.FoldCancels` | search/direct.go:568-572 | cancel is called once if some OK delivery brings the results to the threshold, otherwise never |
| `Collect.CancelsAtFirstReach` | search/direct.go:568-572 | the call happens at a delivery if and only if it is the first OK one to reach the threshold |
| `Collect.MarkedLabelsExact` | search/direct.go:463-496 | a label is passed to Mark if and only if some delivery of it must mark |
| `Collect.MarkAllBelowCapacity` | fetch/blockcache.go:64-76 | below capacity a series of marks adds exactly those labels and evicts nothing |
| `Collect.ShedIsNotDegraded` | search/direct.go:523-528 | when every leg is shed nothing counts as attempted, so the fan-out never reads as degraded |
| `Collect.RaceIsHarmless` | search/direct.go:242-261 | with an ended context both cases of the select leave the collector in the same state if and only if the source fails with a deadline, or with an error of the same class as the cause; a source that reports a deadline is delivered with the very same error |
| `Collect.PipelineRaceIsHarmless` | pipeline/search.go:36-57 | in the pipeline twin, which does not reconcile, both cases leave the collector in the same state if and only if the source fails |
| `Collect.NewlyMarked` | search/direct.go:463-496 | below capacity the newly marked labels are exactly those of a rate-limit error, or allow-listed with the per-source timeout, or allow-listed with an error that is neither Canceled nor DeadlineExceeded |
| `FanOut.RunInv` | search/direct.go:404-433 | the invariant tying the wait group, the channel, the legs and the deliveries holds after every interleaving of dispatcher, calls, timers, workers, closer and collector |
| `FanOut.SendNeverBlocks` | search/direct.go:404-433 | in every interleaving a worker ready to send finds room in an open channel: no send blocks and none follows the close |
| `FanOut.EachLegReceivedOnce` | search/direct.go:419-433 | when the collector returns, every launched leg has been received exactly once, and one without an error is the very reply of its call; any other is the call's own reply, or the context's cause (for the pipeline its error) alone, or a direct call's reply whose deadline is told as that cause |
| `FanOut.SelectTakes` | search/direct.go:240-261 | what either case of the select sends, for the direct worker and, reconciling nothing, for the pipeline's |
| `FanOut.CancelReachesAll` | search/direct.go:359-361 | once cancel has been called, no leg has a live context at any later moment of the run |
| `FanOut.CancelsAsCanceled` | search/direct.go:359-361 | a context ended by cancel reports a cancellation and neither a deadline nor a timeout; contexts that had ended and everything else stay |
| `FanOutRuns.OneCallEach` | search/direct.go:231-236 | each source call returns at most once in a run |
| `FanOutRuns.ReceivedIsAccounted` | search/direct.go:224-266 | whatever the collector has received when it returns is accounted for by steps of the run: the reply a source call returned, unchanged, or the end of that leg's context, by itself or by cancel; a delivery without an error is what the source returned |
| `FanOut.RunsAreFinite` | search/direct.go:404-433 | a measure bounds every run by seven steps per job and two more |
| `FanOut.NeverStuck` | search/direct.go:221-262 | until the collector returns some step other than the return of a source call is possible, so a source that never returns cannot hold it up once timers fire |
| `FanOut.DirectFanOutResult` | search/direct.go:529-575 | at the end of every run Attempted + Shed is the number of launched legs, the sums match, the output is the OK results in arrival order, and cancel was called at most once |
| `FanOut.PipelineFanOutResult` | pipeline/search.go:81-99 | the same for the pipeline, which launches every source: one outcome per source, output in arrival order, at most one cancel |
| `FanOut.CancelledAtMostOnce` | search/direct.go:568-572 | at no moment of any run has cancel been called twice |
| `Escalation.ScanDistinct` | search/direct_runners.go:312-317 | for distinct labels the scan finds exactly the labels blocked at its start and leaves their marks alone |
| `Escalation.AcquireOxSlots` | search/direct_runners.go:387-399 | exactly the first min(capacity, eligible) engines get a slot, in order; the others are skipped |
| `Escalation.Eligible` | search/direct_runners.go:312-317 | the loop asks about the labels in turn and keeps those the cache blocks, as `Scan` says |
| `Escalation.Admit` | search/direct_runners.go:302-342 | the guards of the dormant tier, and otherwise the eligible, admitted and skipped engines |
| `Escalation.RunOxEngine` | search/direct_runners.go:410-428 | results come with the outcome "ok" and with no other, for every engine and reply; which results and which outcome is `Escalation.RenderSound` |
| `Escalation.RenderSound` | search/direct_runners.go:410-508 | the outcome is ok if and only if the engine is one of the three and its page has results, captcha or empty for a page without any according to the gate, and fail for a fetch or parse error or another engine; the results are exactly the page's |
| `Escalation.RunInv` | search/direct_runners.go:329-378 | the invariant over semaphore, gauge, wait group, channel, outcomes and cache holds after every interleaving |
| `Escalation.RendersBounded` | search/direct_runners.go:344-366 | in every interleaving the renders in flight, which the gauge counts, stay within the slots held and these within the admitted engines |
| `Escalation.ConcurrencyRespected` | search/direct_runners.go:296-298 | in every interleaving the renders in flight stay within the configured concurrency, two if it is not positive |
| `Escalation.SettleNeverBlocks` | search/direct_runners.go:356-358 | a worker with results finds room in an open channel |
| `Escalation.NeverStuck` | search/direct_runners.go:344-378 | until the tier returns some step is possible |
| `Escalation.RunsAreFinite` | search/direct_runners.go:344-378 | every run has at most eight steps per admitted engine and two more |
| `Escalation.AdmittedEngine` | search/direct_runners.go:354-365 | at the end each admitted engine has exactly one outcome and is still marked, with its old deadline, if and only if its render found results |
| `Escalation.EachEligibleOneOutcome` | search/direct_runners.go:354-396 | when the tier returns every eligible engine has exactly one outcome on record, that of its render or "skipped", and no other label has any |
| `Escalation.OtherLabel` | search/direct_runners.go:354-365 | every other label, skipped engines included, keeps its mark as it was |
| `Escalation.AllResultsCollected` | search/direct_runners.go:374-378 | the tier returns what its workers sent, each at most once, in arrival order; what they send is `EscalationRuns.EachEngineDelivers` |
| `EscalationRuns.RendersOfRun` | search/direct_runners.go:344-366 | at any moment of any run a worker past its render has rendered exactly once, with the results and the outcome of that fetch, and any other worker has not rendered |
| `EscalationRuns.EachEngineDelivers` | search/direct_runners.go:344-378 | when the tier returns every admitted engine has rendered exactly once in the run, its one outcome is what that fetch came to, and one parcel with exactly that page's results has arrived from it, or none when there are no results |
| `EscalationRuns.OutputIsTheParcels` | search/direct_runners.go:374-378 | the output is the parcels one behind the other in arrival order, each filling the places from where those before it end |
| `Escalation.StillBlockedAfterwards` | search/direct_runners.go:302-379 | end to end: an eligible engine is still blocked until its old deadline if and only if it was skipped for want of a slot or its render returned results |
| `SearchDirect.RunsOfFanOut` | search/direct.go:395-433 | every run with the shared cache in it is a run of the fan-out, so the results on that carry over |
| `SearchDirect.RunInv` | search/direct.go:406-433 | in every interleaving the cache is the initial one after the questions of the dispatcher and the marks of the collector so far |
| `SearchDirect.NeverStuck` | search/direct.go:404-433 | until the collector returns some move other than the return of a source call is possible, whatever the cache answers |
| `SearchDirect.SkippedExactly` | search/direct.go:406-426 | for distinct labels the jobs launched are exactly the enabled ones that the cache did not block when their turn came |
| `SearchDirect.EscalatesWhatIsBlocked` | search/direct.go:433-440 | once the fan-out has returned, an allow-listed label is eligible for escalation if and only if an error of this search marked it or it was blocked before, within the time to live and below capacity |
| `Marginalia.MarginaliaBudget.Acquire` | search/marginalia.go:288-302 | grants, refuses, starts a new day and publishes limit minus spent, as the specification of one call says |
| `Marginalia.MarginaliaBudget.constructor` | search/marginalia.go:260-275 | a full budget for the current day, 80 replacing a limit that is not positive, the gauge published |
| `Marginalia.DayBounds` | search/marginalia.go:277-284 | a day is the calendar day of 24 hours that holds the clock reading |
| `Marginalia.MarginaliaBudget.Reset` | search/marginalia.go:278-284 | the spent count becomes 0 for the day of the given time |
| `Marginalia.MarginaliaBudget.PublishRemaining` | search/marginalia.go:306-311 | the gauge becomes limit minus spent where there is one |
| `Marginalia.DailyGrants` | search/marginalia.go:286-302 | over any sequence of calls whose day never goes back, the grants of each day are min(limit, calls of that day) |
| `Marginalia.GrantedWithinStretch` | search/marginalia.go:286-302 | with any clock, a call is granted if and only if it is among the first `limit` calls of its uninterrupted stretch on one day, and spent is then the length of that stretch up to the limit |
| `Marginalia.ClockGoingBack` | search/marginalia.go:286-302 | a concrete clock going back a day and forth again grants the cap of a day twice |
| `Marginalia.DailyCapExactly` | search/marginalia.go:284-302 | with any clock a day grants min(limit, calls of that day) if and only if its calls are within the limit or not interrupted by a call on another day |
| `Marginalia.GrantsOfDay` | search/marginalia.go:284-302 | with any clock a day grants at least min(limit, calls), and more than the limit if and only if it has more calls than that, not all in one stretch |
| `Marginalia.RunMarginalia` | search/direct_runners.go:253-262 | a request is issued if and only if the budget that applies grants it, and no other budget changes |
| `ParallelFetch.ApplyOptions` | pipeline/fetch.go:25-47 | the limit is the last positive option by its place in the list, and ten if no option is positive |
| `ParallelFetch.BoundedConcurrency` | pipeline/fetch.go:50-66 | in every interleaving at most `limit` workers are inside the fetch function |
| `ParallelFetch.NeverStuck` | pipeline/fetch.go:53-70 | until the call returns some step is possible |
| `ParallelFetch.RunsAreFinite` | pipeline/fetch.go:53-70 | every run has at most five steps per URL and one more |
| `ParallelFetch.SlotsComeFromFetches` | pipeline/fetch.go:59-65 | whatever a slot holds is the outcome of a fetch of its own worker, or its panic |
| `ParallelFetch.AllResultsInOrder` | pipeline/fetch.go:33-71 | the result has one entry per URL in input order, each slot written once, with its own URL and what that fetch came to, panics included |
| `Fusion.FuseWRR` | websearch/fusion.go:11-55 | the loops over map and order and the stable sort compute `WebFused` |
| `Fusion.BuildTable` | websearch/fusion.go:22-41 | the loops keep map and first-seen order in step with the occurrences handled so far |
| `Fusion.FusionMeaning` | websearch/fusion.go:7-10 | one entry per distinct non-empty URL with the metadata of its first occurrence and the sum of weight/(60+rank) over all its occurrences, sorted by descending score with ties in first-seen order |
| `FusionPlaces.FusedByPlace` | websearch/fusion.go:7-55 | told by places of the input, result set and then rank: the output holds, for every place that is the first with its non-empty URL, the item of that place under the double-sum score, and nothing else; by descending score, equal scores in the order of the places |
| `Fusion.GainIsUrlScore` | websearch/fusion.go:22-41 | the score accumulated in the table is the double sum over sets and ranks |
| `Fusion.SeenIsOccurrence` | websearch/fusion.go:27-39 | a URL is in the table if and only if it is non-empty and occurs in some set |
| `Fusion.ScoreConserved` | websearch/fusion.go:22-48 | the fused scores add up to the contributions of all occurrences of non-empty URLs |
| `Fusion.FusedScorePermuted` | websearch/fusion.go:22-41 | with equal weights permuting the result sets changes no URL's score |
| `Fusion.FuseImages` | imagesearch/fusion.go:9-47 | the image fusion computes `ImageFused` |
| `FusionPlaces.ImagesByPlace` | imagesearch/fusion.go:7-47 | the image fusion returns the very items at the first places of their URLs, by descending sum of 1/(60+rank), equal sums in the order of the places |
| `Fusion.TwinsAgree` | imagesearch/fusion.go:9-47 | on sets with the same URLs the image fusion returns the URLs in the order of the web fusion with nil weights |
| `Sorting.OrderedUnique` | websearch/fusion.go:50-52 | there is only one arrangement of the elements that is descending by key with ties in their original order, so every stable sort returns the model's |
| `Dedup.MarkDuplicates` | websearch/dedup.go:35-56 | the nested loops with their early break compute the mask of the specification `Sweep`, for whatever similarity the vectors have |
| `Dedup.MarkAgainst` | websearch/dedup.go:41-53 | the inner loop, with its early break, computes one round of the sweep |
| `Dedup.SweepSound` | websearch/dedup.go:33-56 | for any similarity, every removed result is over the threshold with a strictly better one (higher score, then lower index), and no two survivors are over the threshold with each other |
| `Dedup.ReachesSurvivor` | websearch/dedup.go:33-56 | every removed result reaches a survivor by a chain of over-threshold pairs, each strictly better than the one before |
| `Dedup.BestSurvives` | websearch/dedup.go:33-56 | the earliest result of the top score is never removed |
| `Dedup.WorseRemovedExactly` | websearch/dedup.go:9-11 | whatever the scores, the worse result of every pair over the threshold is removed, if and only if being over the threshold is transitive on the places |
| `Dedup.LastSurvives` | websearch/dedup.go:35-56 | three scores and any similarity with which the last of three results survives although it is over the threshold with a better one |
| `Dedup.DuplicateSurvives` | websearch/dedup.go:9-11 | three concrete texts and scores for which that happens with cosine similarity |
| `Dedup.BagOfWords` | websearch/dedup.go:59-68 | the word-count vector: exactly the words that occur, each with its multiplicity in the list of words |
| `Dedup.Vectors` | websearch/dedup.go:17-20 | one word-count vector per result, in order |
| `Dedup.Survivors` | websearch/dedup.go:24-30 | the results at the places the mask leaves, in order |
| `Dedup.SimSymmetric` | websearch/dedup.go:45-45 | the similarity the sweep compares is symmetric, so asking in either order gives the same answer |
| `Dedup.DedupSnippets` | websearch/dedup.go:12-31 | the output is the results at the places the sweep keeps, in their order |
| `Dedup.DedupMeaning` | websearch/dedup.go:9-31 | with similarities of the contents and the results' own scores: kept places are pairwise within the threshold, every place is supported by a chain up to a kept one, the earliest top-scored result is kept, and a threshold of one or more keeps every place |
| `Dedup.ThresholdOfOne` | websearch/dedup.go:45-45 | a threshold of one or more removes nothing |
| `Dedup.ProportionalTexts` | websearch/dedup.go:9-31 | below a threshold of one, two results whose contents have proportional word counts, such as a text and the same text twice, are not both kept |
| `WordVectors.CosineSimilarity` | websearch/dedup.go:71-90 | the two loops, taking the words in any order, return `Cosine`, whose value `CosineLaws.CosineSquared` fixes by sums over the words |
| `WordVectors.DotAndNorm` | websearch/dedup.go:76-81 | the first loop computes the dot product and the squared norm in any iteration order |
| `WordVectors.SumTake` | websearch/dedup.go:76-84 | the sum over a finite set does not depend on the order in which its elements are taken |
| `WordVectors.CosineSymmetric` | websearch/dedup.go:70-90 | cosine similarity is symmetric although its loops treat the two vectors differently |
| `WordVectors.DotCauchySchwarz` | websearch/dedup.go:75-85 | the square of the dot product is at most the product of the squared norms, over arbitrary finite maps |
| `WordVectors.CosineInUnitInterval` | websearch/dedup.go:70-90 | the cosine of two vectors of non-negative counts lies between 0 and 1 |
| `CosineLaws.CosineSquared` | websearch/dedup.go:75-89 | for vectors of counts and an exact root the similarity c is not negative, c*c times both sums of squares is the square of the sum of products, and c is 0 when a sum of squares is: one value wherever both are positive |
| `CosineLaws.SimilarityOne` | websearch/dedup.go:70-89 | the similarity is one if and only if the first vector is not zero and the second is a positive multiple of it, as for a text and the same text twice |
| `CosineLaws.SimilarityZero` | websearch/dedup.go:70-89 | the similarity is zero if and only if no word has weight in both vectors |
| `Chunker.CharacterChunker.constructor` | text/chunker.go:22-27 | an overlap of at least the chunk size becomes a quarter of it, so the overlap is below a positive chunk size |
| `Chunker.CharacterChunker.Chunk` | text/chunker.go:32-53 | the loop and both shortcuts return the trimmed, non-blank windows of the text; a blank text gives nothing for any size, and only a negative size with a text that is not blank is ruled out, where the source slices out of range |
| `Chunker.CharacterChunker.NextChunk` | text/chunker.go:62-85 | the window at a position and the next position, which is further on |
| `Chunker.CharacterChunker.FindWordBoundary` | text/chunker.go:89-97 | the last space in the second half of the window, or -1 if there is none |
| `Chunker.CharacterChunker.NeedsChunking` | text/chunker.go:55-59 | for every size, when it says no, chunking gives at most one chunk |
| `Chunker.SpacesListed` | text/chunker.go:33-33 | white space is what the Unicode property White_Space lists, by code point |
| `Chunker.FittingText` | text/chunker.go:38-41 | a text that fits after trimming is its own single chunk, a blank text gives none |
| `Chunker.MoreThanOneChunk` | text/chunker.go:55-59 | for chunkSize >= 1 and overlap >= 0 there is more than one chunk if and only if the trimmed text does not fit; the untrimmed test of `NeedsChunking` then agrees exactly when trimming does not make the text fit |
| `Chunker.PaddedText` | text/chunker.go:55-59 | a padded text for which `NeedsChunking` says yes and chunking gives one chunk |
| `Chunker.WindowsAdvance` | text/chunker.go:42-52 | the windows start at strictly increasing positions, the first at the start |
| `Chunker.NeighboursShare` | text/chunker.go:68-85 | for every pair of neighbouring windows, before trimming, how many runes they share: `overlap` after a forced cut, one less after a cut at a space, all but the first rune of the part before the space where the progress clamp acts; so `overlap` if and only if there was no space to cut at |
| `Chunker.SharedAtMost` | text/chunker.go:62-85 | for every non-negative overlap, neighbouring windows never share more than it |
| `Chunker.SpaceEatsOverlap` | text/chunker.go:68-75 | a concrete text whose two windows share nothing at an overlap of one |
| `ChunkOverlap.OverlapKeptExactly` | text/chunker.go:13-31 | for 0 < overlap < chunkSize two neighbouring chunks share the promised `overlap` runes if and only if the cut between them was forced and the last rune of the window cut and the first of the next are visible |
| `ChunkOverlap.SharedRunes` | text/chunker.go:62-85 | for every pair of neighbouring chunks, how many runes they share: what their windows share less the spaces trimmed off the edges, nothing if a blank window lies between, never more than `overlap`; and that the runes in both are those from the start of the second to the end of the first |
| `ChunkOverlap.Cuts` | text/chunker.go:42-52 | every chunk comes from a window, whose trimmed text it is, at the place of the first visible rune |
| `ChunkOverlap.NoOverlap` | text/chunker.go:62-85 | with an overlap of 0 every chunk ends where the next one starts, or before |
| `ChunkOverlap.TrimEatsOverlap` | text/chunker.go:62-85 | a concrete text cut without a space whose two chunks share one rune at an overlap of two, because a line break is trimmed |
| `Chunker.ChunksFit` | text/chunker.go:29-31 | every chunk is a non-empty contiguous part of the text of at most `chunkSize` runes |
| `Chunker.ChunksCover` | text/chunker.go:32-53 | for chunkSize >= 1 and overlap >= 0 the chunks have places in the text, one per chunk and none before that of the chunk before, at the first visible runes of their windows, such that every visible rune lies in a chunk at its place |
| `Chunker.SameStart` | text/chunker.go:62-85 | a concrete text of which two chunks must start at the same rune, so that places need not strictly increase |
| `Chunker.NeverLosesExactly` | text/chunker.go:22-53 | the chunks of every text can be so placed if and only if chunkSize >= 1 and overlap >= 0 |
| `Chunker.LosingText` | text/chunker.go:22-53 | for any other size or overlap, a concrete text whose chunks cannot cover it wherever they are placed |
| `Chunker.ChunksPartition` | text/chunker.go:32-85 | without overlap the visible runes of the chunks, concatenated, are those of the text, in order and each once |
| `Utf8.ValidPrefix` | text/token.go:34-38 | a prefix of valid UTF-8 is valid if and only if it ends at the end or before a rune start (sections 3 and 4 of RFC 3629) |
| `Utf8.StartWithinThree` | text/token.go:34-37 | in valid UTF-8 every byte is a rune start or at most three bytes behind one |
| `Utf8.CutIsLongest` | text/token.go:34-38 | the cut of valid UTF-8 is valid, is the longest valid prefix within the limit, and backs up at most three bytes |
| `Utf8.Truncate` | webtext/truncate.go:5-17 | the string unchanged for a limit of 0 or less, otherwise the cut at the limit |
| `Utf8.TruncateKeepsUtf8` | webtext/truncate.go:3-17 | valid UTF-8 stays valid and a positive limit is kept |
| `Tokens.EstimateIsLeast` | text/token.go:14-19 | the estimate is the least number of tokens whose bytes cover the text |
| `Tokens.EstimateIsZero` | text/token.go:10-16 | the estimate is 0 if and only if the text is empty or the ratio not positive |
| `Tokens.TruncateToTokenBudget` | text/token.go:24-39 | the text cut at the byte limit of the budget, empty for a budget of 0 or less |
| `Tokens.BudgetedIsLongest` | text/token.go:21-39 | for valid UTF-8, a positive budget and a ratio of at least 0 the result is the longest valid prefix of at most floor(maxTokens * charsPerToken) bytes, at most three bytes short of it |
| `Tokens.CutsAgree` | text/token.go:29-38 | on the same byte limit this cut and `webtext.Truncate` agree if and only if the limit is positive or the text empty |
| `Tokens.ZeroLimit` | text/token.go:29-38 | a concrete text, budget and ratio with a byte limit of 0, which one cut empties and the other leaves whole |
| `Tokens.EstimateWithinBudget` | text/token.go:14-39 | a truncated text is never estimated above the budget it was cut to, for every text and ratio |
| `SourcesText.BuildSourcesTextWeighted` | llm/summarize.go:74-90 | the loop writes `Sections`; what they are, source by source, is `SourceBlocks.ShownInOrder` |
| `SourcesText.WriteBody` | llm/summarize.go:78-88 | the branches for one source return `Body`; what that is without naming it is `SourceBlocks.BodyShown` |
| `SourceBlocks.ShownInOrder` | llm/summarize.go:74-117 | source by source: header i+1 with the title and URL of source i, then exactly one of three things up to the next header: its own fetched content cut to its share rounded up, or, without fetched content or without a weight, its own snippet, or nothing when that is empty |
| `SourceBlocks.BodyShown` | llm/summarize.go:78-88 | what follows a header, stated about the source, its fetched content and its weight alone |
| `SourceBlocks.BudgetedCut` | text/token.go:21-39 | for every text and ratio the cut is a prefix, empty without tokens or with a negative ratio, within tokens * ratio bytes, and for valid UTF-8 the longest valid prefix within them |
| `SourcesText.RatioIsAlwaysSafe` | llm/summarize.go:81-85 | with a ratio of at least 0 no truncation slices with a negative bound, whatever the weights |
| `SourcesText.BuildSourcesText` | llm/summarize.go:94-117 | the specified sections with the ranked weights; at most five Content sections; their estimated tokens within totalBudget if that is a non-negative multiple of twenty, and within totalBudget + 4 exactly when totalBudget >= -4 |
| `SourcesText.ContentBounded` | llm/summarize.go:74-90 | for any weights, at most one Content section per weight, together within the rounded shares |
| `SourcesText.RankedShares` | llm/summarize.go:92-107 | the five ranked shares of a budget of at least 0 add up to between the budget and four more, and to the budget itself if and only if it is a multiple of twenty |
| `SourcesText.RankedTwentieths` | llm/summarize.go:92-107 | the five ranked shares are 6, 5, 4, 3 and 2 twentieths of the budget, each rounded up |
| `SourcesText.TotalKeptExactly` | llm/summarize.go:96-117 | totalBudget is the total for all results, contents and ratios if and only if it is a non-negative multiple of twenty |
| `SourcesText.FiveTokensForOne` | llm/summarize.go:96-117 | a budget of one token for which five sources show five, so that four tokens over is reached |
| `SourcesText.SharesUsedUp` | llm/summarize.go:99-117 | for every positive budget some five sources show exactly the sum of the ranked shares |
| `SourcesText.KeepsTotalIffShares` | llm/summarize.go:96-117 | for any allowance, what a budget guarantees over all inputs is exactly what its ranked shares add up to |
| `SourcesText.RankedTotal` | llm/summarize.go:92-117 | for every input: the total within a non-negative multiple of twenty, the bound totalBudget + 4 exactly from -4 on, and no content tokens at a budget of 0 or less |
| `SourcesText.ContentsWellCut` | llm/summarize.go:80-86 | valid fetched contents give valid UTF-8 in every Content section, each the start of what was fetched for a listed source |

## Left out

- Goroutines, channels and mutexes as such: the concurrent protocols are step systems on values, one atomic step per
  channel operation, wait-group operation or state change. Aliasing between goroutines is not captured, apart from the
  shared cache of the escalation tier, which is part of its state; the memory model is not.
- `Escalation.StillBlockedAfterwards`: does not model another user of the cache during the tier, because the source
  promises its un-marking only for the engines of one call.
- `FanOut.NeverStuck`: does not state a wall-clock bound; it shows that a step other than a source's return is always
  possible, and timers are steps.
- `Fusion.FuseWRR`: does not model float64 rounding or NaN; scores are reals. The in-place sort is a function
  (`Sorting.StableSort`) pinned down by `Sorting.OrderedUnique`.
- `WordVectors.CosineSimilarity`: does not model float64; `sqrt` is any exact square root on the non-negative reals.
- `Dedup.DedupSnippets`: does not model lower-casing and splitting into words; they are the parameter `fields`.
- `Tokens.TruncateToTokenBudget`: requires what keeps the source from slicing with a negative bound, which needs a
  negative ratio; products and quotients are exact reals.
- `Chunker.CharacterChunker.Chunk`: requires chunkSize >= 0 for a text that is not blank, where the source slices out of
  range below that. Texts are sequences of runes, so the replacement of malformed bytes by U+FFFD is not modelled.
- `FactVerify.FactNumberTokens`: does not model the regular expression; the matches are spans of digits and separators.
- `FactVerify.VerifyFacts`: does not model metrics, NFC, case folding and white-space folding; normalisation is a
  parameter. Idempotence of the whole normalisation is not stated.
- `Marginalia.RunMarginalia`: does not model the HTTP request; its reply is a parameter. A typed-nil budget is a null
  reference.
- `Escalation.RunOxEngine`: does not model fetching and parsing a page; what they report is a parameter.
- `ParallelFetch.AllResultsInOrder`: does not model a fetch function that ends its goroutine with `runtime.Goexit`, which
  leaves its slot zero in the source, without a URL or an error.
- `SearchDirect.EscalatesWhatIsBlocked`: does not model another search using the cache at the same time.
- The defaults of the early-return threshold and of the timeouts: the threshold of `Collect.Rules` is the one in force.
- 64-bit overflow of `pos+chunkSize`, deadlines and counters: integers are unbounded.
- Logging, metrics other than the gauges named above, and durations.
- Early exit of the fan-outs when no source is enabled: it returns what the step system with no legs returns.
- HTTP clients, proxies, parsers of search pages, extraction, the language-model client and prompts: I/O or libraries.
- BM25 filtering of `text/filter.go`: it needs logarithms and an unstable sort.
- Reddit tier fall-back, query classification, time-range and header tables: table lookups and plumbing.
- Request limits other than the Marginalia budget, whose resets are not atomic with their counts.
