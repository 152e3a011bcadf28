# Verification of the control-panel service

A Dafny model of two parts of the service, with proofs. `dafny verify dfyconfig.toml` checks all of it.

**Market-data coverage** (`internal/marketdata`). An index of segments says which stretches of a stream are in
storage. A query clips the index, cuts it at UTC year boundaries, merges it, finds the gaps, looks into raw storage
inside the gaps, and counts. The loops are modelled as loops. Each is proved to compute what a set of instants says it
should: the merge is a canonical form of the clipped index, the gaps are its exact complement, and a repaired answer is
"index or raw rows". Time is an unbounded count of nanoseconds from 1970-01-01, and years follow the Gregorian rule.

**The runtime control plane** (`internal/runtime`, `internal/repository`). The SQL tables are maps held in objects. A
repository method is one atomic step that either moves the tables to the state a step function defines or, when it
returns an error, leaves them alone, because every transaction is rolled back. The laws are about arbitrary runs of
such steps: runtime admission with one-shot credentials, heartbeats, connection owners, endings, revocation and the
watchdog; the hosted-name allocator over the paged runtime list; the durable command queue; and the resume leases of
the runtime channel.

| module | subject |
|---|---|
| `Calendar`, `Intervals`, `Segments`, `Sorting`, `Sources`, `YearSplit` | years, interval grids, segments and their canonical lists, the year cut |
| `Merging`, `MergeLaws`, `ProvenanceLaws` | the merge of the index and its laws; the labels, times and identities of its pieces |
| `Gaps`, `GapLaws`, `Slots` | the complement and slot counting |
| `Keys`, `Rows`, `RowLaws`, `Paging`, `PagingLaws` | rebuilding coverage from raw rows; reading the rows page by page |
| `Fallback`, `FallbackLaws`, `FallbackCounts`, `CoverageQuery`, `Validation` | repair from raw storage, the query, reported segments |
| `RegistryState`, `RegistryInvariant`, `AdmissionLaws`, `RegistryLaws`, `RevocationLaws`, `ConnectionLaws` | the registry, its invariant and its laws |
| `WatchdogLaws`, `WatchdogRuns`, `RegistryExamples` | one reap; the watchdog over runs; concrete runs |
| `Listing`, `HostedNames`, `RuntimeRepository` | the paged list, generated names, and the repository and service objects |
| `Commands`, `CommandLaws`, `CommandRepository`, `CommandExamples` | the command queue |
| `Leases`, `LeaseRepository` | the resume leases |
| `Sets`, `Text`, `Wrappers` | shared helpers |

## What the proofs found

- `3d` is an admitted interval, but year starts are not multiples of three days from the epoch. A year cut can
  therefore make an aligned `3d` segment unmergeable (`MergeLaws.ThreeDayMergeFails`). `MergeLaws.MergeSucceedsIff`
  gives the exact condition; every interval that divides a day meets it.
- The paging loop restarts a step after the last row of a page, so after a full page it skips rows that open less than
  a step later. `PagingLaws.PagesKeep` says exactly what it returns, `PagingLaws.PagesCompleteIff` exactly when that is
  everything, and `PagingLaws.DenseStoreLosesRow` shows a store that loses a row. Rows on one grid are never that close.
- `ExpectedCount` never reports "not a multiple": two aligned ends already make the length one.
- A successful credentialed admission always inserts. The overwrite branch of the two upserts is reachable only for
  hosted rows admitted without a key.
- A terminal bare row can be revived by admitting it again: `RegistryLaws.TerminalRevivesIff` says exactly when, and
  `RegistryExamples.EndedBareRuntimeRevives` is such a run. Hosted and self-hosted rows never are.
- Revocation is final in every run of the service (`RevocationLaws.RevokedForever`). The repository alone does not
  guarantee it: admission trims the key to find the credential but stores it as presented, while ending by key matches
  it exactly. Only a direct call with a padded key shows the difference
  (`RegistryExamples.PaddedRowOutlivesRevocation`); the service looks keys up exactly as presented and issues none with
  white space.
- The `expired` mark on a credential is written in a transaction that is always rolled back, so it is never durable.
- Marking a row unhealthy refreshes its modification time. A runtime that never sent a heartbeat is dated by that time
  and so gets a whole death grace more (`WatchdogRuns.NeverSeenRuntimeEnds`).
- `domain/credential.go` says a credential has two states; the code and the tables have five, and the model has those
  five. A migration comment says that revocation makes runtimes `cancelled`; the code ends them with `auth_failed`,
  whose status is `failed`, and the model follows the code.
- Claiming a command does not look at the runtime's status: an ended runtime with a recorded owner still gets commands
  (`CommandExamples.EndedRuntimeIsStillServed`).
- `RuntimeChannel` also rotates a lease to its own current hash, on every heartbeat, to extend it. Such a renewal retires
  nothing and introduces nothing (`Leases.RenewalIntroducesNothing`), so the chain laws hold for any number of renewals.

## Model

| member | source | states |
|---|---|---|
| `Intervals.IntervalDuration` | internal/marketdata/coverage.go:13-33 | a usable interval has a positive length of whole seconds; anything else is an invalid interval or an unsupported unit |
| `Intervals.UnitLengths` | internal/marketdata/coverage.go:22-32 | whatever number stands before the unit, a day is 24 hours, 1440 minutes and 86400 seconds; there is no other unit |
| `Intervals.DecimalIsRead` | internal/marketdata/coverage.go:17-20 | a number in decimal notation is read back as itself, up to the largest 64-bit integer |
| `Intervals.CountErrors` | internal/marketdata/coverage.go:35-53 | exactly when each error of the slot count is reported |
| `Intervals.ExpectedCount` | internal/marketdata/coverage.go:35-53 | succeeds exactly for a non-empty range with both ends on the interval grid; count times step is the length; the "not a multiple" error cannot occur; which error each failure reports |
| `Intervals.AdmittedIntervals` | internal/marketdata/service.go:68 | of the intervals the service admits, `1w` and `1M` have no length, and `3d` is the only other one that does not divide a day |
| `Intervals.DivisorOfDay` | internal/marketdata/coverage.go:55-61 | a step that divides a day divides every whole number of days from the epoch |
| `Calendar.YearOf` | internal/marketdata/coverage.go:266-286 | every instant lies between the start of its UTC year and the start of the next |
| `Calendar.YearOfUnique` | internal/marketdata/coverage.go:266-286 | no other year contains the instant |
| `Calendar.YearStartIsWholeDays` | internal/marketdata/coverage.go:272-275 | every UTC year starts a whole number of days from the epoch |
| `Calendar.EpochDayClosed` | internal/marketdata/coverage.go:272-275 | the start of every year, before or after 1970, lies the closed Gregorian number of days from the epoch |
| `Sources.MergeIsJoin` | internal/marketdata/coverage.go:288-296 | combining two provenance labels gives their least upper bound, with no label at the bottom and `mixed` at the top |
| `YearSplit.SplitCoverageSegmentByYear` | internal/marketdata/coverage.go:266-286 | the cursor loop produces one piece for each UTC year the segment touches, in order, as defined without a cursor |
| `YearSplit.SplitIsCanonical` | internal/marketdata/coverage.go:266-286 | the pieces are non-empty, ascending, disjoint and each inside the year it is labelled with |
| `YearSplit.SplitCovers` | internal/marketdata/coverage.go:266-286 | the pieces cover exactly the instants of the segment |
| `YearSplit.SplitOfOneYear` | internal/marketdata/coverage.go:266-286 | a segment already inside its year is left alone |
| `YearSplit.SplitAligned` | internal/marketdata/coverage.go:274-283 | the pieces are all on the grid if and only if the segment's ends and every year start strictly inside it are |
| `YearSplit.DayDivisorAlignsCuts` | internal/marketdata/coverage.go:274-283 | for a step that divides a day, year cuts never leave the grid of a segment whose ends are on it |
| `Segments.CanonicalUnique` | internal/marketdata/coverage.go:124-187 | the instants covered determine the ranges and years of a canonical list |
| `Merging.MergeCoverageForQuery` | internal/marketdata/coverage.go:124-187 | returns the canonical, counted merge of the clipped same-key parts, each piece summarising the parts inside it; fails exactly for an empty range or an off-grid part, and with which error |
| `MergeLaws.MergeCoversExactly` | internal/marketdata/coverage.go:124-187 | the merged list covers exactly the same-key index clipped to the query |
| `ProvenanceLaws.MergedDominates` | internal/marketdata/coverage.go:143-183 | wherever an index segment and a merged piece share an instant, the piece is no older and its label no lower |
| `ProvenanceLaws.MergedLabel` | internal/marketdata/coverage.go:172 | the label of a merged piece is the least upper bound of the labels of the same-key index segments that share an instant with it |
| `ProvenanceLaws.MergedTime` | internal/marketdata/coverage.go:178-180 | its time is the latest of theirs |
| `ProvenanceLaws.MergedIdentity` | internal/marketdata/coverage.go:148-166 | its identity is that of a segment over its first instant, of those the one that ends first inside it |
| `MergeLaws.MergeIgnoresOrder` | internal/marketdata/coverage.go:124-187 | two indexes with the same members give the same answer, errors included, up to the segment identity |
| `MergeLaws.MergeIgnoresPermutation` | internal/marketdata/coverage.go:124-187 | rearranging the index leaves every range, year, count, label and time of the answer as it was |
| `MergeLaws.MergeIsIdempotent` | internal/marketdata/coverage.go:124-187 | merging a merged list again returns it unchanged, identities included |
| `MergeLaws.MergeSucceedsIff` | internal/marketdata/coverage.go:159-162 | with a usable interval, the merge succeeds if and only if the range is non-empty and every clipped same-key segment has its ends and year cuts on the grid |
| `MergeLaws.DayDivisorMergeSucceeds` | internal/marketdata/coverage.go:159-162 | for a step that divides a day, aligned queries over aligned segments always merge |
| `MergeLaws.ThreeDayMergeFails` | internal/marketdata/coverage.go:159-162 | for `3d`, an aligned one-slot segment across 1 January 1971 cannot be merged |
| `Gaps.ComputeMissingSegments` | internal/marketdata/coverage.go:63-122 | for any list, a success is the ascending list of maximal non-empty uncovered ranges, together the whole complement, each with its slot count; it fails exactly for an empty range or an off-grid gap |
| `GapLaws.GapsDependOnCoverOnly` | internal/marketdata/coverage.go:63-122 | the answer depends only on which instants of the request are covered |
| `GapLaws.AlignedGapsSucceed` | internal/marketdata/coverage.go:96-99 | aligned requests over segments with aligned ends never fail, whatever the step |
| `Slots.TotalIsSlotCount` | internal/marketdata/coverage.go:35-53 | the counts of an aligned disjoint list add up to the number of slots it holds |
| `Slots.Conservation` | internal/marketdata/service.go:741-757 | two such lists that split a request between them add up to the request |
| `Rows.CoverageSegmentsFromKlineRows` | internal/marketdata/coverage.go:189-264 | a success is the canonical counted list covering exactly the slots of the distinct in-range, on-grid open times; it fails exactly when some slot or a year cut inside it is off the grid |
| `RowLaws.RebuildIgnoresOrder` | internal/marketdata/coverage.go:189-264 | row order and duplicate rows make no difference |
| `RowLaws.RebuildCountsOpens` | internal/marketdata/coverage.go:255-262 | the row counts add up to the number of distinct on-grid open times |
| `RowLaws.DayDivisorRebuildSucceedsIff` | internal/marketdata/coverage.go:255-262 | for a step that divides a day, the rebuild succeeds if and only if it finds no open times or the range starts on the grid |
| `Paging.FetchRawKlinesForCoverage` | internal/marketdata/service.go:821-861 | the paging loop ends for arbitrary query answers and returns the pages joined, or the first error |
| `PagingLaws.PagesKeep` | internal/marketdata/service.go:821-861 | against a store that answers each query with the first rows of its range, ascending, the loop never fails and returns exactly what is left once each full page has skipped the rows less than a step behind its end |
| `PagingLaws.PagesReadTheStream` | internal/marketdata/service.go:832-840 | against one store for each exchange, market, symbol and interval, exactly the kept rows of the stream the key names are returned |
| `PagingLaws.FetchReadsTheStream` | internal/marketdata/service.go:820-863 | so for a whole fetch, over the milliseconds of the range and a step at a time |
| `PagingLaws.PagesRead` | internal/marketdata/service.go:831-861 | against any store at all: which pages are read, when the loop ends, and with which rows or which error |
| `PagingLaws.PagesCompleteIff` | internal/marketdata/service.go:852-857 | nothing is missing and nothing is returned twice if and only if no row opens less than a step behind the end of a full page |
| `PagingLaws.PagesAreWindow` | internal/marketdata/service.go:821-861 | in particular nothing is lost when all rows are a step apart |
| `PagingLaws.GridStoreIsSpaced` | internal/marketdata/service.go:852-857 | an ascending store of distinct on-grid rows is spaced that way |
| `PagingLaws.DenseStoreLosesRow` | internal/marketdata/service.go:852-857 | read as `1s` rows, a store of 5001 rows a millisecond apart is returned without its last row |
| `Fallback.CoverageWithRawFallback` | internal/marketdata/service.go:780-819 | the result is the merge of the index, or of the index with the rebuild of every gap's fetched rows, or the first failure on the way |
| `FallbackLaws.FallbackCoversExactly` | internal/marketdata/service.go:780-819 | the repaired coverage is the clipped index together with the slots of the on-grid rows fetched inside its gaps, and nothing else |
| `FallbackLaws.FallbackIsIndexUnionKept` | internal/marketdata/service.go:780-861 | against any honest ascending store, an instant is covered if and only if the index covers it or it falls in the slot of an on-grid row that paging keeps in a gap |
| `ProvenanceLaws.RepairedLabel` | internal/marketdata/service.go:801-818 | the label of a repaired piece is the least upper bound of the labels of the index segments that meet it and, exactly if a row was fetched for part of it, of `raw_storage` |
| `FallbackLaws.FallbackIsIndexUnionStoreIff` | internal/marketdata/service.go:780-861 | the repaired coverage is "index or stored on-grid rows" if and only if reading the gaps skips no row on the interval grid |
| `FallbackLaws.WholeGapsSkipNothing` | internal/marketdata/service.go:852-857 | it is so whenever no row of a gap opens less than a step behind the end of a full page |
| `FallbackCounts.FallbackConservesRows` | internal/marketdata/service.go:797-818 | total row count after repair is the index's total plus the number of distinct on-grid open times fetched in the gaps |
| `FallbackCounts.DayDivisorFallbackFailsOnlyOnFetch` | internal/marketdata/service.go:780-819 | for a step that divides a day, an aligned query over an aligned index fails only with the error of the first gap that could not be fetched |
| `CoverageQuery.QueryMarketDataCoverage` | internal/marketdata/service.go:717-778 | expected count is covered count plus missing counts; covered count is the sum of the row counts; complete exactly when the two counts agree, and exactly when every instant is covered; every error accounted for |
| `CoverageQuery.CountsAreConserved` | internal/marketdata/service.go:741-757 | covered and missing counts add up to the request, so the clamp at zero is never reached |
| `CoverageQuery.RepairedGapsCount` | internal/marketdata/service.go:737-740 | after repair the final complement cannot fail |
| `Validation.AcceptedIff` | internal/marketdata/service.go:477-531 | a reported segment is accepted, and stored as described, if and only if it lies inside the UTC year it names, from 1970 on, with a label and one row for every slot |
| `Validation.RefusedFor` | internal/marketdata/service.go:477-531 | which failed check each refusal names |
| `Validation.AcceptedIsOnePiece` | internal/marketdata/service.go:497-506 | an accepted segment is never cut at a year boundary |
| `Validation.PieceIsReportable` | internal/marketdata/service.go:477-531 | a single-year piece with full counts survives being reported back, if and only if its year is 1970 or later and its label is not blank |
| `RegistryInvariant.StepKeepsInv` | internal/repository/timescale.go:102-345 | every step keeps the registry sound: unique names per user across all sources and statuses, one live debugger per user, unique live keys, every carried key spent on its row, every spent credential matched by its row |
| `RegistryInvariant.RunKeepsInv` | internal/repository/timescale.go:102-448 | after every run each user's names are unique across all sources and statuses and no user has two live debuggers, along with the rest of the invariant |
| `RegistryInvariant.FirstUseInserts` | internal/repository/timescale.go:141-181 | a credential's first use never overwrites a row |
| `RegistryInvariant.UnspentKeyIsNew` | internal/repository/timescale.go:503-516 | no row, live or ended, carries the key of an unspent credential |
| `RegistryLaws.CredentialNamesOneRuntime` | internal/repository/timescale.go:450-526 | whatever row carries a credential's key at any later point of any run is the row that carried it first, and the credential records that row, its user, role and source |
| `RegistryLaws.RunKeepsRow` | internal/repository/timescale.go:170-173 | in every run a row stays, and its user, its credential and its source never change |
| `RegistryLaws.CredentialedAdmissionInserts` | internal/repository/timescale.go:141-181 | an admission that presents a credential and succeeds always adds a row |
| `AdmissionLaws.SelfHostedAdmissionIff` | internal/repository/timescale.go:206-345 | exactly when a self-hosted admission succeeds, in the columns the caller presents |
| `AdmissionLaws.HostedAdmissionIff` | internal/repository/timescale.go:102-199 | exactly when a hosted admission succeeds, in the columns the caller presents: on an unspent credential as a new runtime, or without one as a new runtime or over a live hosted row of the same user and key |
| `AdmissionLaws.BareAdmissionIff` | internal/repository/timescale.go:350-448 | exactly when a bare admission succeeds; an existing row must be a bare row of the same user, live or ended |
| `AdmissionLaws.AdmissionIff` | internal/repository/timescale.go:102-448 | whether any of the three admissions succeeds can be told beforehand |
| `AdmissionLaws.AdmissionStores` | internal/repository/timescale.go:142-186 | a successful admission writes one row, column by column as presented or as defaulted, and spends exactly the presented credential |
| `AdmissionLaws.AdmissionErrors` | internal/repository/timescale.go:102-526 | which refusals are invalid requests, which violate a constraint, and that no other is anything but a conflict |
| `AdmissionLaws.IssuedIff` | internal/repository/timescale.go:1156-1181 | exactly when a credential is issued; it is stored unused, unrevoked and without expiry |
| `RegistryLaws.TerminalIsFinal` | internal/repository/timescale.go:741-831 | in any run, a terminal hosted or self-hosted row keeps everything but its connection owner and modification time |
| `RegistryLaws.TerminalRevivesIff` | internal/repository/timescale.go:426-427 | a terminal row becomes live again if and only if a live bare runtime of the same user is admitted over it and clashes with no other row |
| `RegistryLaws.StepEndsAs` | internal/domain/runtime.go:44-55 | a live row that a step is to end is left with that reason and time, in the terminal status the reason calls for, and otherwise as it was |
| `RegistryLaws.OnlyEndingEnds` | internal/repository/timescale.go:741-831 | apart from admissions, nothing else ends a live row |
| `RegistryExamples.EndedBareRuntimeRevives` | internal/runtimechannel/service.go:637-663 | admitted, ended and admitted again, a bare runtime is live |
| `RegistryLaws.StatusFollowsReasonIff` | internal/domain/runtime.go:44-55 | a step keeps every terminal status in agreement with its reason if and only if it does not admit an already ended row where they differ |
| `RegistryLaws.RunFollowsReason` | internal/runtimechannel/service.go:637-663 | in every state reached by admitting live rows, as the only caller does, every terminal status is the one its reason calls for |
| `RevocationLaws.RevocationIsFinal` | internal/repository/timescale.go:517-521 | once a credential is revoked and no live row carries it, neither ever changes |
| `RevocationLaws.ServiceRunKeepsPlain` | internal/runtimechannel/auth.go:158-167 | where keys are issued without white space and looked up as presented, no row is ever stored under a padded key |
| `RevocationLaws.RevocationEndsExactly` | internal/repository/timescale.go:776-792 | on arbitrary tables, revoking and ending by key leaves live exactly the rows stored under a padded key |
| `RegistryExamples.PaddedRowOutlivesRevocation` | internal/repository/timescale.go:450-526 | calling the repository directly with a padded key makes such a row |
| `RevocationLaws.RevokedForever` | internal/runtimechannel/registry.go:321-333 | in every run of the service from the empty tables, once a credential is revoked and its runtimes are ended by key, no later state has a live row with it |
| `ConnectionLaws.OwnerStays` | internal/repository/timescale.go:676-721 | an owner keeps the connection, and the time it acquired it, through any run that neither records another owner nor clears this one |
| `ConnectionLaws.RecordedOwnerStays` | internal/repository/timescale.go:676-704 | an instance recorded over another owner, or over none, holds the connection since that time, through any run that neither records another nor clears it |
| `ConnectionLaws.RecordingMakesOwner` | internal/repository/timescale.go:676-704 | recording succeeds exactly for a live row, and an owner recorded again keeps the time it acquired the connection |
| `ConnectionLaws.ClearingTakesOwner` | internal/repository/timescale.go:706-721 | clearing leaves the runtime without an owner if it names the owner, and changes nothing otherwise |
| `WatchdogLaws.ReapOutcome` | internal/runtime/service.go:655-681 | exactly which rows one reap marks unhealthy, which it ends, and that it touches nothing else |
| `WatchdogLaws.NoStaleAfterReap` | internal/repository/timescale.go:618-644 | after a reap no starting, paired or active row was last seen before the heartbeat cutoff |
| `WatchdogLaws.ReapIsRun` | internal/runtime/service.go:655-681 | a reap is the two watchdog updates as steps of a run |
| `WatchdogLaws.SeenRuntimeStaysHealthy` | internal/repository/timescale.go:618-644 | a runtime seen since the cutoff at every check is not unhealthy at the end of any run |
| `WatchdogRuns.PacedIsSeen` | internal/runtime/service.go:655-681 | under a clock that never goes back, heartbeats at most the grace apart put the runtime inside the cutoff at every check |
| `WatchdogRuns.BeatingRuntimeStaysHealthy` | internal/runtime/service.go:655-681 | so a runtime that keeps beating is never marked unhealthy, whatever else happens in the run |
| `WatchdogRuns.SilentRuntimeEnds` | internal/repository/timescale.go:798-831 | in any run without a heartbeat or admission of the runtime, a reap later than both graces of its last heartbeat leaves it ended, and as heartbeat-stale if nothing ended it before |
| `WatchdogRuns.NeverSeenRuntimeEnds` | internal/runtime/service.go:655-681 | without any heartbeat the row is dated by its last write: a reap past the heartbeat grace marks it, and a later one past the death grace of that mark and of any write since leaves it ended, whatever happens in between |
| `WatchdogRuns.UnhealthyEndsWhenSilent` | internal/repository/timescale.go:798-831 | a reap ends an unhealthy runtime if and only if it is silent beyond its own source's death grace |
| `RuntimeRepository.Repository.CreateOrReplaceHostedRuntime` | internal/repository/timescale.go:102-199 | both tables move to the state the admission defines, or neither moves; it succeeds exactly on what a caller can check beforehand |
| `RuntimeRepository.Repository.CreateOrReplaceSelfHostedRuntime` | internal/repository/timescale.go:206-345 | both tables move to the state the admission defines, or neither moves; it succeeds exactly on what a caller can check beforehand |
| `RuntimeRepository.Repository.CreateOrReplaceBareRuntime` | internal/repository/timescale.go:350-448 | the registry moves to the state the admission defines, credentials are not touched; it succeeds exactly on what a caller can check beforehand |
| `RuntimeRepository.Repository.ConsumeRuntimeCredential` | internal/repository/timescale.go:450-526 | succeeds exactly without a key, or on the user's own credential of the right role and source, unused and unexpired at the row's time, for a runtime that has spent no other; then exactly that credential is spent on that runtime; and which error each refusal gives |
| `RuntimeRepository.Repository.CreateRuntimeCredential` | internal/repository/timescale.go:1156-1181 | the new tables; issued exactly under a new key, with a role, and as not downloaded or downloaded; which error each refusal gives |
| `RuntimeRepository.Repository.RevokeRuntimeCredential` | internal/repository/timescale.go:1268-1322 | succeeds exactly for the owner; the returned row is the stored one, revoked now or as it was revoked before |
| `RuntimeRepository.Repository.TouchRuntimeCredentialUsed` | internal/repository/timescale.go:1324-1330 | only the time of last use of that credential changes; an unknown key is passed over |
| `RuntimeRepository.Repository.UpdateRuntimeHeartbeat` | internal/repository/timescale.go:646-674 | the new row, column by column; accepted exactly for a live row |
| `RuntimeRepository.Repository.RecordRuntimeConnectionOwner` | internal/repository/timescale.go:676-704 | the new row, column by column; a blank id is a conflict, and a missing or ended runtime is not found |
| `RuntimeRepository.Repository.ClearRuntimeConnectionOwner` | internal/repository/timescale.go:706-721 | the new row, column by column; only the named owner is cleared |
| `RuntimeRepository.Repository.EndRuntime` | internal/repository/timescale.go:741-774 | the new row, ended for the reason at the time given; a terminal row is returned as it stands; which error each refusal gives |
| `RuntimeRepository.Repository.EndRuntimesByCredentialKey` | internal/repository/timescale.go:776-792 | the new tables and how many rows ended; no live row stored under the key remains |
| `RuntimeRepository.Repository.MarkStaleRuntimesUnhealthy` | internal/repository/timescale.go:618-644 | the new tables, and as its result exactly the rows it marked |
| `RuntimeRepository.Repository.EndDeadRuntimesBySourceCutoffs` | internal/repository/timescale.go:798-831 | the new tables, and as its result exactly the rows it ended; with a reason it never fails |
| `RuntimeRepository.Service.ReapStaleRuntimes` | internal/runtime/service.go:655-681 | the state the two updates lead to, and as its result exactly the rows marked and the rows ended |
| `Listing.ListingUnique` | internal/repository/timescale.go:562-567 | the filter and the order determine the listing |
| `Listing.PageOfListing` | internal/repository/timescale.go:540-598 | every page is the same window of the one listing, with its true total, and says whether anything follows |
| `Listing.PageRows` | internal/repository/timescale.go:540-598 | every row of a page is a stored row of the user with the status and source asked for, no older than the rows after it, and listed once |
| `Listing.PageSize` | internal/repository/timescale.go:540-598 | a page holds at most the limit, 20 if none is given and never above 200, and exactly the limit if anything follows; the total counts the matching rows; a last page from the start holds them all |
| `RuntimeRepository.Repository.ListRuntimes` | internal/repository/timescale.go:540-598 | clamped limit and offset; the sentinel row decides `hasMore` and is never returned |
| `RuntimeRepository.Service.FindRuntimeByUserNameSource` | internal/runtime/service.go:1094-1110 | the page walk ends, and finds a row exactly when there is one |
| `Listing.FoundMeans` | internal/runtime/service.go:1094-1110 | what is found is a row of the user, name and source asked for; nothing is found only if every such row is ended and ended rows are left out |
| `RuntimeRepository.Service.GenerateAvailableHostedRuntimeName` | internal/runtime/service.go:1130-1145 | returns a well-formed name no row of the user has in any status; fails if and only if all 144 names are in use; always succeeds for a user with fewer than 144 rows |
| `HostedNames.HostedNamesDiffer` | internal/runtime/service.go:1147-1159 | the 144 generated names are pairwise different |
| `HostedNames.NamesInOrder` | internal/runtime/service.go:1147-1159 | the names run from `hosted-amber-atlas` to `hosted-steady-matrix`, the adjective varying first |
| `HostedNames.HostedNameIsValid` | internal/runtime/service.go:57-73 | every generated name matches the runtime-name pattern |
| `HostedNames.AttemptsReachEveryName` | internal/runtime/service.go:1135-1143 | 144 consecutive attempts reach every name, wherever they begin |
| `HostedNames.ExhaustionNeedsRows` | internal/runtime/service.go:1130-1145 | using up every generated name takes at least 144 rows |
| `HostedNames.FreeNameIsAdmitted` | internal/repository/timescale.go:121-138 | a name found free passes both the admission's name check and the table's |
| `CommandLaws.StepKeepsInvIff` | internal/repository/runtime_commands.go:21-59 | a step keeps timestamps, attempt counts and keys in order if and only if it does not insert a command in a status other than "queued" |
| `CommandLaws.Phases` | internal/repository/runtime_commands.go:95-104 | a command waits, is in flight, or is finished, and never two of these |
| `CommandLaws.StatusNeverGoesBack` | internal/repository/runtime_commands.go:138-215 | over any run a command's status rank never falls, its identity and the times already recorded never change, and a terminal row is never touched |
| `CommandLaws.AttemptsCountDispatches` | internal/repository/runtime_commands.go:107-125 | the attempt counter is the number of times the run handed the command out |
| `CommandLaws.AtMostOneDispatch` | internal/repository/runtime_commands.go:107-125 | no command is handed out twice in any run, and its sent time records whether it was |
| `CommandLaws.SentTimeIsFinal` | internal/repository/runtime_commands.go:107-125 | once a command is sent, its sent time never changes in any run |
| `CommandLaws.DispatchedIff` | internal/repository/runtime_commands.go:71-136 | a command is handed out if and only if the claimant is the recorded owner, fewer than the limit (1 if it is not positive) are unfinished, and of those that wait it was created first, ties going by id |
| `CommandExamples.EndedRuntimeIsStillServed` | internal/repository/runtime_commands.go:84-93 | admitted, connected and ended, a runtime still gets a command through its recorded owner |
| `CommandLaws.RoomMeansDispatch` | internal/repository/runtime_commands.go:71-136 | an owner with fewer unfinished commands than the limit is never turned away while a command waits |
| `CommandLaws.FirstInFirstOut` | internal/repository/runtime_commands.go:113-121 | of two commands of one runtime queued together, the later is never sent while the earlier still waits |
| `CommandLaws.InFlightBounded` | internal/repository/runtime_commands.go:95-105 | with serialised claims whose limits are at most L, for L at least 1, no run leaves more than L commands of a runtime handed out and unfinished |
| `CommandLaws.RepeatedKeyReturnsOriginal` | internal/repository/runtime_commands.go:32-58 | after any run, creating again under an existing idempotency key returns the existing command and changes nothing |
| `CommandLaws.ExpiryIsExact` | internal/repository/runtime_commands.go:190-215 | an expiry sweep ends exactly the overdue unfinished commands, with the reason given, and leaves none |
| `CommandRepository.Repository.CreateRuntimeCommand` | internal/repository/runtime_commands.go:21-59 | the new row column by column, and the duplicate flag; a duplicate changes nothing, and a new command is inserted exactly when neither its key nor its id is taken |
| `CommandRepository.Repository.ClaimNextRuntimeCommand` | internal/repository/runtime_commands.go:71-136 | not found exactly for a blank id or an unregistered runtime; what is handed out is the next in line, to the recorded owner, below the limit, and is then sent; otherwise nothing changes |
| `CommandRepository.Repository.AcknowledgeRuntimeCommand` | internal/repository/runtime_commands.go:138-150 | succeeds exactly for a sent or acknowledged command; the new row column by column |
| `CommandRepository.Repository.MarkRuntimeCommandRunning` | internal/repository/runtime_commands.go:152-164 | succeeds exactly for a command in flight; the new row column by column |
| `CommandRepository.Repository.CompleteRuntimeCommand` | internal/repository/runtime_commands.go:166-188 | succeeds exactly for a terminal target and an unfinished command, which is left with the status and reason given; a non-terminal target is a conflict |
| `CommandRepository.Repository.TimeoutRuntimeCommands` | internal/repository/runtime_commands.go:190-215 | the new table and exactly which commands were ended |
| `Leases.RunKeepsInv` | internal/repository/runtime_channel_admission.go:16-129 | in every run no two unrevoked leases share a hash, and every lease expires after it was issued |
| `Leases.RotationRetires` | internal/repository/runtime_channel_admission.go:99-129 | a rotation puts the new hash on the lease, leaves other leases alone, and retires the old hash if and only if the new one is different |
| `Leases.ReplacementRetires` | internal/repository/runtime_channel_admission.go:30-49 | creating a lease anew retires the previous hash exactly when it stores another one or a revoked lease |
| `Leases.ReturnNeedsIntroduction` | internal/repository/runtime_channel_admission.go:16-129 | a hash that is not current and becomes so later was stored afresh, not renewed, by a successful step in between |
| `Leases.RotationsSpendIntroductions` | internal/repository/runtime_channel_admission.go:99-129 | every rotation away from a hash spends one introduction of it, however often the lease was renewed to the hash |
| `Leases.FreshHashLeavesOnce` | internal/repository/runtime_channel_admission.go:99-129 | a hash introduced at most once, renewals aside, is rotated out at most once, and is then refused by get, touch and rotation |
| `Leases.GoneForGood` | internal/repository/runtime_channel_admission.go:16-129 | a hash introduced at most once that was current and is not any more, rotated out or replaced, is refused by get, touch and rotation ever after |
| `Leases.RenewalIntroducesNothing` | internal/runtimechannel/service.go:507 | the renewal that each heartbeat makes is neither an introduction nor a departure, and the hash stays current |
| `Text.TrimSpaceIs` | internal/repository/timescale.go:451 | trimming cuts off white space and only white space, all of it at either end |
| `Text.SpacesByCodePoint` | internal/repository/timescale.go:451 | which code points count as white space |
| `Text.LessIff` | internal/repository/runtime_commands.go:118 | ids are ordered by their first difference, a prefix coming first |
| `LeaseRepository.Repository.CreateRuntimeChannelLease` | internal/repository/runtime_channel_admission.go:16-58 | exactly when it succeeds and when it violates a constraint; the new row column by column, issued now and for 24 hours unless dated |
| `LeaseRepository.Repository.GetRuntimeChannelLeaseByHash` | internal/repository/runtime_channel_admission.go:60-73 | finds the unrevoked lease with the hash exactly when there is one |
| `LeaseRepository.Repository.TouchRuntimeChannelLease` | internal/repository/runtime_channel_admission.go:75-97 | succeeds exactly for a current, unexpired hash of that runtime, and then only dates the use |
| `LeaseRepository.Repository.RotateRuntimeChannelLease` | internal/repository/runtime_channel_admission.go:99-129 | exactly when the compare-and-swap succeeds, the new row column by column, and which hash is accepted afterwards |

## Left out

- Sorting: `sort.SliceStable` and the SQL `ORDER BY` are modelled by their result, not by an algorithm.
- MergeLaws.MergeIgnoresOrder: says nothing about the segment identity, because a merged piece keeps the identity of
  whichever member sorted first.
- CommandLaws.InFlightBounded: claims of one runtime are taken one at a time; the database's default isolation lets two
  concurrent claims both pass the count.
- WatchdogRuns.BeatingRuntimeStaysHealthy: assumes that no admission presents a row that is already unhealthy; the
  runtime channel admits every row as active.
- RuntimeRepository.Service.ReapStaleRuntimes: returns the marked and the ended rows as two maps by runtime id; the
  order of the source's single list, by modification time, is not modelled.
- RuntimeRepository.Service.GenerateAvailableHostedRuntimeName: the starting offset is a parameter between 0 and 143,
  which is what the clock gives for any time after 1970.
- `time.Time` limits (the range of `UnixNano`, `Duration` saturation), time zones, and 32- or 64-bit counters.
- Concurrency of SQL statements beyond atomic steps, row locks and `SKIP LOCKED`.
- `CreateRuntime` and `UpdateRuntimeStatus`: the first is a raw insert and the second an unguarded status write, so
  neither is a step of the runs.
- Errors of the database or of the market-data query itself, other than as an error value the query returns; a querier
  is a function of its query, since no query is issued twice for one answer.
- Columns that no law reads: endpoints, ports, capabilities, resource profile, version, token hash, cleanup and debug
  state, command payload and result, session id.
- `expires_at` of a credential is never written by `CreateRuntimeCredential`; expiry is modelled for rows that have it.
- Collation: runtime and command ids are ordered by code point.
- Stream-key validation and the lower-casing of raw queries: the model starts from a validated key.
- Notifications, deprovisioning and session marking after a reap, hosted-slot lookup, and the circuit breaker over recent failures.
- Admission-failure records, usage counts, the market-data writer, delivery and request tables, debugger datasets.
- Certificates, hashes, random ids, Docker commands, logging, configuration, generated protobuf and gRPC code.
