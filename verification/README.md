# Trasker in Dafny

Trasker is a time tracker: a desktop client records focus events and window layouts,
lets the user tag and submit them, and sends them to a server. This project models the
algorithms and protocols behind that and proves what they keep. Tables are maps or
sequences, times are whole UTC seconds, and each SQL statement or transaction is one
atomic effect. Failures, lost requests, lost replies, crashes and the order in which
concurrent parts run are inputs, so the results hold for all of them.

Where the source changes state step by step, the model is a class or a method with
loops; its contract equates the new state with a specification function of the old one,
and the lemmas are about that function, over all runs.

| module | what it models |
|---|---|
| Base, Lexical, Utf8, FocusEvents, Backoff, Grouping | shared: options and sets, byte order, what JSON keeps of a string, focus events, the retry schedule, grouping and sorting |
| Cascade | the note cascade |
| CanonicalForm, SparseLog | hashing a window set, and the change log of window sets |
| SnapshotStore, LookupSurvival, StorageBound | the server's snapshot table under tiered downsampling |
| LayoutSync, LayoutDelivery, LayoutPass, LayoutIngest, LayoutRetries, IdReuse | sending snapshots to the server, one pass of the client, the ingest handler, the spacing of retries, and what a reused row id does |
| SessionEngine, Aggregation | recording focus events and merging them |
| AutoSubmit, SubmissionQueue, SubmissionLaws | automatic submission, and delivery with retries |
| Migrations | the schema migration runner |
| Patcher | patching client binaries |
| Tagger | tag rules and their learning |
| Deadman, Pomodoro | two small timers |

## What the code does not give

These are proved as lemmas: an input that shows the failure, and next to it the condition
under which the expected property does hold.

- The window cascade can differ from the per-event cascade when an event ends before it
  starts (`BoxCascadeDiffersOnReversedEvents`). The two agree for every anchor in a store,
  with any further event added, exactly if no event in the store does
  (`AgreesIffEndsOrdered`).
- The comment in internal/client/layout/layout.go calls the printed form unambiguous; it
  is so exactly when the strings hold no NUL (`PrintIsUniqueIffNulFree`).
- Rows store the windows as JSON, which replaces bytes that are not UTF-8, while the hash is
  taken of the raw bytes; the X11 enumerator can return such titles
  (internal/client/layout/enum_linux_x11.go:120). A stored window set is the enumerated one
  exactly if its strings are UTF-8 (`StoredIffWellFormed`). Two successive rows can hold
  equal windows (`LatinTitlesCollide`); the rows tell a set apart from every UTF-8 set
  exactly if it is UTF-8 itself (`RowsTellApartIffWellFormed`).
- A bucket can hold two downsampled rows, because a cutoff can fall inside it
  (`TwoTenMinuteRows`, `TwoHourlyRows`). It never holds more than one row beyond the number
  of cutoffs strictly inside it (`RowsWithinCutoffs`), so two is the bound while firings are
  an hour apart; the downsampler also fires after each server start, and frequent restarts
  can leave more. With hourly firings one row is kept exactly if they fall on the edges of
  the buckets (`TwoReachableIffMisaligned`).
- SQLite reuses the highest id after its row is deleted. If Prune deletes the newest row
  while it is in flight, the next capture takes its id and can be marked synced without
  having been sent (`ReusedIdLosesRow`). A capture can lose its row exactly if its id is in
  a batch that waits for its reply or is being marked (`CanLoseIffToMark`).
- The comment in internal/client/sync/queue.go announces a first retry after one minute;
  the first retry waits five, since the counter is raised before the schedule is read
  (`FirstRetryWaitsFiveMinutes`).
- A lost reply stores a timesheet twice (`LostReplyStoresTwice`). A submission with a server
  id was stored once exactly if every attempt that the server committed was acknowledged and
  recorded (`StoredOnceIffAcknowledged`).
- Across a restart the window log can repeat itself, exactly if the newest row and the first
  tick show the same windows (`RestartRepeatsIffSame`).
- A failing EndFocusEvent can leave two events open (`FailedEndLeavesTwoOpen`). Only the
  current event is open exactly if no event was open before the run, and no step lets go of
  an open event with a failing end
  (`OpenIsCurrentIffNothingLost`).
- Two migration files with one version prefix can never both be executed
  (`CompletesIffVersionsDistinct`); the lexical order of prefixes is the numeric order
  exactly for prefixes of equal width (`OrdersAgreeIffEqualWidths`).
- A patched value can create a new sentinel, for instance one that starts with an underscore
  (`UnderscoreBreaks`). Every generic binary round-trips a request exactly if no value ends
  in NUL, and none shares an end with a sentinel that is yet to be replaced by something
  else (`RoundTripIffFits`).
- A learned title rule matches the contexts it was learned from exactly when their title
  holds no path separator, which is the slash or, on Windows, the backslash
  (`LearnedRuleMatchesEvidence`).
- A goroutine left from a cancelled pomodoro phase can end the next one early
  (`StaleGoroutineEndsNewPhase`): exactly if the phase has the name of its own
  (`StaleExpiryIff`).
- An answer to the deadman's switch given before a check counts for that check
  (`EarlyAnswerIsKept`): one that starts can be answered at once exactly if some answer so
  far has not been taken, nor any after it (`EarlyAnswerIff`).

## Model

| member | source | states |
|---|---|---|
| FocusEvents.ListFocusEvents | internal/client/store/focus_events.go:94-116 | exactly the events that start inside the closed range, in start order |
| FocusEvents.ListedOnce | internal/client/store/focus_events.go:94-116 | an event in the range is listed as often as it is stored, any other not at all |
| Cascade.FrontierBounds | internal/client/session/cascade.go:116-144 | the earliest start, and the latest end but never less than the first event's start; the zero time for no events |
| Cascade.BoxRoundIsPerEvent | internal/client/session/cascade.go:64-97 | given that the previous window is exhausted, the window spanned by the whole frontier reaches an open event iff some single frontier event does |
| Cascade.SaturatesNext | internal/client/session/cascade.go:59-100 | after a round every unsubmitted event starting inside the round's window is tagged, and the new frontier lies in that window |
| Cascade.BoxCascadeIsPropagate | internal/client/session/cascade.go:59-100 | for every store without reversed events and every number of rounds, the windows tag exactly what per-event propagation tags |
| Cascade.AgreesIffEndsOrdered | internal/client/session/cascade.go:116-144 | the two cascades agree, for every anchor in a store and every event added to it, whatever is submitted and however many rounds, iff no event in the store is reversed |
| Cascade.BoxCascadeDiffersOnReversedEvents | internal/client/session/cascade.go:116-144 | with an event that ends before it starts the two differ |
| Cascade.Reach | internal/client/session/cascade.go:59-100 | after k rounds starts lie within the sum of k radii of the anchor, plus k times the longest event on the late side, and only unsubmitted events were added |
| Cascade.CascadeReach | internal/client/session/cascade.go:17-23 | tagged events start at most 112.5 minutes before the anchor, and at most 112.5 minutes plus four times the longest event after it; apart from the anchor none is submitted |
| Cascade.ChainIsReached | internal/client/session/cascade.go:17-23 | a chain of unsubmitted events is tagged as far as each lies within an hour, then half, a quarter and an eighth of an hour of the one before |
| Cascade.RadiiAreExact | internal/client/session/cascade.go:17-23 | in a store of five events in a row, behind gaps of just these lengths, the next gap is crossed iff it is no longer, to the second |
| Cascade.TagAllTwice | internal/client/store/event_tags.go:21-31 | applying the tag again changes nothing, and existing rows are never altered |
| Cascade.EmptyFrontierStops | internal/client/session/cascade.go:60-62 | stopping at an empty frontier loses nothing |
| Cascade.WindowIsBox | internal/client/session/cascade.go:65-71 | the computed search window is the window of the specification |
| Cascade.Store.GetFocusEvent | internal/client/store/focus_events.go:85-91 | the row with the id, or none if there is none |
| Cascade.Store.IsEventSubmitted | internal/client/store/event_tags.go:81-90 | true iff a submission links the event |
| Cascade.Store.ApplyTagToEvent | internal/client/store/event_tags.go:21-31 | adds the row unless the pair is there |
| Cascade.Cascader.Apply | internal/client/session/cascade.go:39-108 | fails iff the anchor is missing, changing nothing; otherwise returns, each once, the ids that per-event propagation reaches, and the tag table gains exactly their missing rows, the anchor as a manual one, the others as cascaded from it |
| Cascade.Cascader.Round | internal/client/session/cascade.go:64-99 | one pass tags the open events of the window and makes them the next frontier |
| CanonicalForm.LessIsTotal | internal/client/layout/layout.go:81-99 | the six-field comparison is a strict total order |
| CanonicalForm.LessIsTransitive | internal/client/layout/layout.go:81-99 | and transitive |
| CanonicalForm.SortedIsUnique | internal/client/layout/layout.go:81-99 | a sorted list is determined by its multiset, whatever the sort does |
| CanonicalForm.DecimalIsInjective | internal/client/layout/layout.go:103-104 | signed decimals determine the number and hold no delimiter |
| CanonicalForm.RowIsUnambiguous | internal/client/layout/layout.go:103-104 | a printed row at the front of a stream can be read back in one way only |
| CanonicalForm.PrintAllIsInjective | internal/client/layout/layout.go:102-105 | NUL-free window lists with equal streams are equal |
| CanonicalForm.CanonicalFormIsExact | internal/client/layout/layout.go:77-107 | equal multisets give equal hashed bytes, and for NUL-free strings only equal multisets do |
| CanonicalForm.PrintedExample | internal/client/layout/layout.go:102-105 | the bytes of one window, written out |
| CanonicalForm.PrintedInOrder | internal/client/layout/layout.go:81-99 | of two windows the one with the smaller application, title, position or size, in that order, is printed first |
| CanonicalForm.PrintIsUniqueIffNulFree | internal/client/layout/layout.go:69-72 | a window's printed form belongs to no other window iff its strings hold no NUL |
| CanonicalForm.SortSlice | internal/client/layout/layout.go:81-99 | leaves a sorted permutation in the array |
| CanonicalForm.HashWindows | internal/client/layout/layout.go:77-107 | writes the canonical bytes and leaves the caller's slice alone |
| Utf8.SanitizedIffWellFormed | internal/client/layout/capturer.go:135-139 | writing a string to JSON and reading it back keeps exactly the well-formed strings, and doing it twice changes no more |
| Utf8.WellFormedIffEncoded | internal/client/layout/capturer.go:135-139 | a string is well-formed iff it is the UTF-8 encoding of some sequence of Unicode scalar values |
| SparseLog.StoredIffWellFormed | internal/client/layout/capturer.go:135-139 | the stored window set is the enumerated one iff all strings are well-formed UTF-8 |
| SparseLog.RunKeepsLog | internal/client/layout/capturer.go:112-153 | in every run rows are in time order, each was written for an enumerated list and carries its hash, and the remembered hash is the newest row's |
| SparseLog.ConsecutiveRowsDiffer | internal/client/layout/capturer.go:129-133 | rows written one after the other were written for lists that differ as multisets, under any mix of locks and failures; for UTF-8 lists the rows themselves differ |
| SparseLog.RowsTellApartIffWellFormed | internal/client/layout/capturer.go:128-146 | a list is stored differently from every UTF-8 list that differs from it iff it is UTF-8 itself |
| SparseLog.LatinTitlesCollide | internal/client/layout/capturer.go:128-146 | two Latin-1 titles lead to two successive rows with the same windows |
| SparseLog.SparseLogAgreesWithDense | internal/client/layout/capturer.go:112-153 | for every tick that completed, however far back, the row found at or before its time holds what JSON keeps of the windows enumerated then: those very windows iff they are UTF-8 |
| SparseLog.TickHeedsLock | internal/client/layout/capturer.go:116-120 | after a lock event a tick writes nothing until the next unlock; otherwise every tick that enumerates and can write is answered by its own windows for ever after |
| SparseLog.RestartRepeatsIffSame | internal/client/layout/capturer.go:33 | the first tick of a run writes a row, and it carries the hash of the newest row before iff the two lists are the same multiset |
| SparseLog.Capturer.OnTick | internal/client/layout/capturer.go:112-153 | one tick takes the step of the specification, for every lock state, enumeration result and write result |
| SnapshotStore.InsertKeepsUniqueKeys | migrations/004_layout_snapshots.up.sql:27-28 | an insert keeps (device, time, hash) unique, and succeeds iff the key is present afterwards |
| SnapshotStore.BucketsAreMultiples | internal/server/store/layout_snapshots.go:182-183 | the two bucket expressions cut time at multiples of 600 and 3600 seconds |
| SnapshotStore.SurvivorOf | internal/server/store/layout_snapshots.go:145-174 | every selected row leaves a promoted row of its partition, captured no later |
| SnapshotStore.OneSurvivor | internal/server/store/layout_snapshots.go:145-174 | a partition keeps at most one selected row |
| SnapshotStore.SweepsAreExact | internal/server/store/layout_snapshots.go:145-224 | of the raw rows older than 7 days just the first per device and ten minutes stays, as a ten-minute row; of the ten-minute rows older than 37 days just the first per device and hour, as an hourly row; all other rows stay as they are |
| SnapshotStore.RunKeepsUniqueKeys | migrations/004_layout_snapshots.up.sql:27-28 | after every run of inserts and sweeps the unique index holds |
| SnapshotStore.Store.InsertSnapshot | internal/server/store/layout_snapshots.go:66-83 | stores the row as raw, or reports a duplicate, or fails; nothing else changes |
| SnapshotStore.Store.GetSnapshotAt | internal/server/store/layout_snapshots.go:88-105 | a latest row of the device at or before the time; none iff there is none |
| SnapshotStore.Store.Downsample | internal/server/store/layout_snapshots.go:145-174 | promotes the first of each partition, deletes the rest, returns how many were deleted; a failed transaction changes nothing |
| SnapshotStore.Store.DownsampleTo10Min | internal/server/store/layout_snapshots.go:180-201 | raw rows older than 7 days, 10-minute buckets |
| SnapshotStore.Store.DownsampleTo1Hr | internal/server/store/layout_snapshots.go:205-224 | 10-minute rows older than 37 days, hourly buckets |
| SnapshotStore.Store.RunDownsampler | cmd/trasker-server/layout_downsampler.go:46-62 | both sweeps with one shared time, the second even if the first fails |
| LookupSurvival.SweepKeepsCovered | internal/server/store/layout_snapshots.go:145-174 | a sweep leaves a stand-in for a snapshot in every slot that its buckets subdivide or that is newer than its cutoff |
| LookupSurvival.AcceptedStaysCovered | internal/server/store/layout_snapshots.go:66-224 | an accepted snapshot stays covered over every later run |
| LookupSurvival.RowsWereAccepted | internal/server/store/layout_snapshots.go:66-83 | every row is some accepted snapshot, with its windows and hash, in some tier |
| LookupSurvival.LookupSurvives | internal/server/store/layout_snapshots.go:88-105 | if later sweeps spare a snapshot's slot of width w, a lookup at or after it succeeds with a row less than w older |
| LookupSurvival.LookupIsNotNewer | internal/server/store/layout_snapshots.go:88-105 | the row found is no newer than the latest snapshot accepted by then |
| LookupSurvival.LookupWithinAnHour | internal/server/store/layout_snapshots.go:203-224 | whatever the sweeps, a lookup succeeds and loses less than an hour |
| LookupSurvival.LookupWithinTenMinutes | internal/server/store/layout_snapshots.go:176-201 | less than ten minutes while the bucket is newer than 37 days at every one-hour sweep |
| LookupSurvival.LookupIsExact | internal/server/store/layout_snapshots.go:88-105 | the very capture time while the snapshot is newer than 7 days at every sweep |
| StorageBound.RunKeepsOrder | cmd/trasker-server/layout_downsampler.go:46-62 | in every regular run, also between the two sweeps of a firing, what a tier's sweep has not promoted lies at or after its last cutoff |
| StorageBound.SweepGains | internal/server/store/layout_snapshots.go:145-174 | a sweep adds at most one row to a bucket of its tier, one that was unswept and lies before the cutoff |
| StorageBound.RowsWithinCutoffs | internal/server/store/layout_snapshots.go:145-224 | in either tier, at most one row per device and bucket beyond the number of different cutoffs strictly inside the bucket, however often the sweeps run |
| StorageBound.AtMostTwoPerBucket | cmd/trasker-server/layout_downsampler.go:46-62 | with firings an hour or more apart, at most two 10-minute rows per device and 10-minute bucket, and two hourly rows per device and hour |
| StorageBound.AlignedKeepsOneRow | internal/server/store/layout_snapshots.go:145-224 | if every firing falls on the edge of a tier's buckets, each device keeps at most one row per bucket in it |
| StorageBound.TwoTenMinuteRows | internal/server/store/layout_snapshots.go:180-201 | at any other offset some regular run reaches two ten-minute rows in a bucket |
| StorageBound.TwoHourlyRows | internal/server/store/layout_snapshots.go:205-224 | and two hourly rows |
| StorageBound.TwoReachableIffMisaligned | cmd/trasker-server/layout_downsampler.go:46-62 | for either tier, two rows in a bucket are reachable with firings at an offset iff the offset is not zero |
| Backoff.BackoffGrows | internal/client/sync/queue.go:153-159 | the wait never shrinks from one failure to the next and stays between a minute and an hour |
| LayoutDelivery.CompletedDelivers | internal/server/api/layout_handlers.go:118-160 | a delivery that gets through a batch has delivered every payload in it |
| LayoutDelivery.RunKeepsInv | internal/client/layout/sync.go:137-187 | over every run with late, repeated and broken deliveries, lost replies, failed statements, crashes, captures, prunes and sweeps: synced rows were delivered, and the batch under way names the rows it was read from |
| LayoutDelivery.SyncedWasIngested | internal/client/layout/sync.go:176-183 | a row marked synced was stored by the server, whose lookup at its capture time still finds a snapshot less than an hour older |
| LayoutDelivery.ServerNeverDuplicates | internal/server/store/layout_snapshots.go:66-83 | however often a batch is repeated, the server holds one row per (device, time, hash) |
| LayoutDelivery.CapturedIsKept | internal/client/layout/store.go:138-147 | a captured row stays, unaltered, until Prune deletes it |
| LayoutDelivery.PruneDeletesOld | internal/client/layout/store.go:138-147 | Prune deletes just the rows captured before its cutoff |
| LayoutDelivery.PendingOrIngested | internal/client/layout/sync.go:137-187 | a captured row not pruned is pending or was ingested |
| IdReuse.CaptureKeepsInvIff | internal/client/layout/store.go:37-48 | a capture keeps the invariant whatever it captures iff its id is not in a batch that waits for its reply or is being marked |
| IdReuse.CanLoseIffToMark | internal/client/layout/store.go:84-93 | a run without reuse so far can go on with a capture under the next id, and no other reuse, to mark that row synced though the server never stored it, iff the id is in a batch that waits for its reply or is being marked |
| IdReuse.ReusedIdLosesRow | internal/client/layout/store.go:84-93 | such a state is reachable: the loss happens |
| LayoutPass.Syncer.ListDueSnapshots | internal/client/layout/sync.go:192-232 | exactly the pending rows whose backoff has passed, each once, oldest first |
| LayoutPass.Syncer.ProcessPending | internal/client/layout/sync.go:137-187 | posts the due rows up to the batch size; marks them row by row on success, bumps them on a transient error, leaves them on a permanent one |
| LayoutPass.MarkingIsARun | internal/client/layout/sync.go:176-183 | the marking loop is an uninterrupted run of the system's steps |
| LayoutPass.BumpingIsARun | internal/client/layout/sync.go:162-173 | so is the retry loop |
| LayoutPass.PassIsARun | internal/client/layout/sync.go:137-187 | every pass is a run of the system's steps: it marks rows only after the server got through the batch, bumps them only after a transient error, and ends idle with the table the pass leaves |
| LayoutRetries.RowRetriesBackOff | internal/client/layout/sync.go:192-232 | the k-th and the next failure recorded for a row are at least 5, 15, then 60 minutes apart, over every run in which its id is not reused in flight |
| LayoutRetries.RowDueAgain | internal/client/layout/sync.go:192-232 | a pending row is due again exactly after that wait |
| LayoutRetries.PermanentErrorDelaysNothing | internal/client/layout/sync.go:154-160 | after a permanent error the same batch can be sent again at once |
| LayoutIngest.IngestHandler.Ingest | internal/server/api/layout_handlers.go:61-162 | inserts until the first failure and undoes nothing; 201 iff the whole non-empty batch got through; received and deduped account for the rows gained |
| Grouping.SortBy | internal/client/sync/submit.go:264-266 | some sorted permutation |
| Grouping.AggregateConserves | internal/client/sync/submit.go:246-268 | any quantity that merging adds up is preserved per tag and in total |
| Grouping.AggregateIsUnique | internal/client/sync/submit.go:263-267 | with distinct keys the result depends only on the multiset of rows, not on their order, map order or sort ties |
| Grouping.AggregateBy | internal/client/sync/submit.go:251-268 | one merged row per tag, each from its group sorted by start, listed in start order |
| Aggregation.Aggregate | internal/client/sync/submit.go:246-268 | returns an aggregate of the entries with the same total duration |
| Aggregation.AggregateConservesTime | internal/client/sync/submit.go:271-295 | the tags are those of the input, each entry holds its tag's total, the grand total is kept |
| Aggregation.MergedTellsAll | internal/client/sync/submit.go:271-295 | a merged entry starts with the first entry of its tag and ends with the last in start order, and its notes are just their non-empty notes, one a line in that order |
| Aggregation.NotesStand | internal/client/sync/submit.go:283-292 | every non-empty note stands whole in the merged notes, that of an earlier entry on a line before |
| Aggregation.AggregateIsDeterministic | internal/client/sync/submit.go:263-267 | with distinct start times there is one result |
| Aggregation.AggregateTwice | internal/client/sync/submit.go:246-268 | aggregating again changes nothing |
| Aggregation.AggregateRawEvents | internal/client/sync/submit.go:118-136 | returns an aggregate of the raw events |
| Aggregation.RawAggregateConserves | internal/client/sync/submit.go:118-171 | event ids are a permutation of the input's, and per-tag and total durations are kept |
| Aggregation.RawMergedTellsAll | internal/client/sync/submit.go:138-171 | a merged preview entry starts with the first event of its tag, ends with the last, and lists their notes and ids in start order |
| Aggregation.TallyApps | internal/client/sync/submit.go:151-158 | the total, and each application's total |
| Aggregation.BuildAppSummary | internal/client/sync/submit.go:174-201 | exactly the applications with a positive floored percentage, each once, largest first |
| Aggregation.SummaryAddsUp | internal/client/sync/submit.go:184-190 | for non-negative durations and a positive total the percentages shown add up to at most 100 and more than 100 minus the number of applications |
| SessionEngine.RunKeepsInv | internal/client/session/engine.go:85-152 | every run on top of an earlier timeline, handled in timestamp order, keeps a timeline in which the current event is the last, and there is none while paused, whatever statements fail |
| SessionEngine.PausedIff | internal/client/session/engine.go:112-136 | the engine is paused iff the user went away or paused and tracking has not been resumed since |
| SessionEngine.FocusBecomesCurrent | internal/client/session/engine.go:85-110 | a focus change while recording becomes the last event and the current one, with its application, title and time, even if the event before could not be ended |
| SessionEngine.FocusIsRecorded | internal/client/session/engine.go:85-152 | when no statement fails, every focus change while recording is an event of its own for good: open until the next one, a pause or a stop, then closed at that time |
| SessionEngine.NothingElseIsRecorded | internal/client/session/engine.go:85-152 | there is one new event per recorded focus change and no other, and earlier rows are left alone |
| SessionEngine.OpenIsCurrentIffNothingLost | internal/client/session/engine.go:85-152 | every event but the current one is closed iff none was open before the run and no step has let go of an open event with a failing end |
| SessionEngine.RecordedEventsAreDisjoint | internal/client/session/engine.go:85-152 | of two events the earlier ends before the later starts, in every run; an open event is the last, current, and the engine not paused if nothing was lost, else some open event is not the current one |
| SessionEngine.RecordedTimeIsReal | internal/client/store/focus_events.go:38-50 | durations add up to at most the time since the first event |
| SessionEngine.FailedEndLeavesTwoOpen | internal/client/session/engine.go:94-98 | an example of a lost event, open beside the new one |
| SessionEngine.MergedEntriesAreReal | internal/client/sync/submit.go:271-295 | entries from recorded events with distinct starts merge to entries that cover all their events and claim no more time than they span |
| SessionEngine.Engine.HandleFocusChange | internal/client/session/engine.go:85-110 | ends the current event and starts the new one, unless paused |
| SessionEngine.Engine.HandlePresenceChange | internal/client/session/engine.go:112-136 | Away and Paused end the event and pause, Tracking resumes, Checking does nothing |
| SessionEngine.Engine.EndCurrentEvent | internal/client/session/engine.go:144-152 | ends the current event, if any, and forgets it |
| AutoSubmit.NoEventAutoSubmittedTwice | internal/client/autosubmit/autosubmit.go:141-173 | no event is in two automatic submissions, even when recording the run fails after the submission commits |
| AutoSubmit.ConfigTracksSwitch | internal/client/autosubmit/autosubmit.go:94-137 | the config row is enabled iff the last successful save chose a cadence, and holds the time of the last switch from off to on |
| AutoSubmit.PicksAreLegitimate | internal/client/autosubmit/autosubmit.go:178-205 | what a run submits is finished, not idle, on a ticked tag, unsubmitted, and started at or after the last switch from off to on |
| AutoSubmit.ConfigIsExact | internal/client/autosubmit/autosubmit.go:43-137 | cadence, ticked tags, switch-on time and last run are those of the history, so a run is due iff auto-submit is on, a tag is ticked, and the chosen hours have passed since the last recorded run or the switch-on |
| AutoSubmit.RunSubmitsExactly | internal/client/autosubmit/autosubmit.go:141-205 | a due run without failure submits, as one submission, all and only the finished, non-idle, unsubmitted events on a ticked tag started since the switch-on; any other run submits nothing |
| AutoSubmit.RunsKeepTheirDistance | internal/client/autosubmit/autosubmit.go:43-49 | two recorded runs at an unchanged cadence are at least the interval apart |
| AutoSubmit.FirstRunWaits | internal/client/autosubmit/autosubmit.go:91-93 | the first recorded run comes at least an interval after the switch from off to on |
| AutoSubmit.Database.Save | internal/client/autosubmit/autosubmit.go:94-137 | all or nothing: fails on a cadence not offered, an unknown or repeated tag, or a failed transaction |
| AutoSubmit.Database.EligibleEventIDs | internal/client/autosubmit/autosubmit.go:178-205 | exactly the eligible events, each once |
| AutoSubmit.Database.CreateSubmission | internal/client/sync/submit.go:205-242 | links all events or none |
| AutoSubmit.Database.RunOnce | internal/client/autosubmit/autosubmit.go:141-173 | the step of the specification, with the id and size of the submission made, and an error iff a due run could not submit or record |
| SubmissionLaws.ServerIdIsCommitted | internal/client/sync/queue.go:204-209 | a server id names the timesheet the server committed in one attempt on the submission: the aggregate of the rows loaded in that attempt |
| SubmissionLaws.ConfirmedIsFinal | internal/client/sync/queue.go:112-118 | a confirmed submission is never sent again and stays as it is |
| SubmissionLaws.StatusIsExact | internal/client/sync/queue.go:162-210 | a submission is confirmed iff an attempt recorded that the server took it or that there was nothing to send, and has a server id iff an attempt that stored it was acknowledged and recorded |
| SubmissionLaws.ServerIdNamesAttempt | internal/client/sync/queue.go:204-209 | the server id is that of the timesheet committed in the acknowledged attempt |
| SubmissionLaws.FailuresAreCounted | internal/client/sync/queue.go:271-280 | the row counts its recorded failures, remembers the last, and they are spaced by the schedule |
| SubmissionLaws.RetriesBackOff | internal/client/sync/queue.go:141-145 | the k-th and the next recorded failure are at least the k-th backoff apart; N of them, from the third on, take at least 20 + 60 (N - 3) minutes |
| SubmissionLaws.DueAgain | internal/client/sync/queue.go:141-159 | a pending submission is due again exactly 5, 15, then 60 minutes after its last recorded failure |
| SubmissionLaws.FirstRetryWaitsFiveMinutes | internal/client/sync/queue.go:13-19 | the one-minute entry of the schedule is never used |
| SubmissionLaws.StoredOnceIffAcknowledged | internal/client/sync/queue.go:162-210 | a submission with a server id was stored at least once, and exactly once iff every attempt the server committed got a good reply that was recorded |
| SubmissionLaws.LostReplyStoresTwice | internal/server/store/timesheets.go:64-101 | a lost reply makes the server store the timesheet twice |
| SubmissionQueue.Server.CreateTimesheet | internal/server/store/timesheets.go:64-101 | all entries or nothing, wherever the failure strikes |
| SubmissionQueue.Queue.ProcessOne | internal/client/sync/queue.go:162-210 | one attempt is a step of the specification, with the commit and the reply that the load, request, server and connection lead to |
| SubmissionQueue.Queue.ListDueSubmissions | internal/client/sync/queue.go:112-151 | exactly the pending rows whose backoff has passed, each once, oldest submission first |
| Lexical.BeforeIsTotal | migrations/migrate.go:158 | the order on strings is a strict total order |
| Lexical.EqualWidthOrderIsNumeric | migrations/migrate.go:123-126 | for decimal prefixes of equal width the lexical order is the numeric order |
| Lexical.OrdersAgreeIffEqualWidths | migrations/migrate.go:123-126 | the two orders agree on all decimal prefixes of two widths iff the widths are equal |
| Migrations.Discover | migrations/migrate.go:127-160 | fails iff a file is misnamed; otherwise the migrations in version order |
| Migrations.CandidatesAre | migrations/migrate.go:127-157 | the list holds just the up-migrations among the files |
| Migrations.ExecutedIsPrefix | migrations/migrate.go:109-120 | from an empty database, over any failures and restarts, the executed migrations are a prefix of the list and exactly they are recorded |
| Migrations.RecoveryIsComplete | migrations/migrate.go:74-120 | a run without failure ends as one uninterrupted run does, and a further run changes nothing |
| Migrations.CompletesIffVersionsDistinct | migrations/migrate.go:222-239 | the whole list can be executed iff no two files share a version |
| Migrations.TakeoverExecutesNothing | migrations/migrate.go:89-107 | a schema set up before the runner is taken over without executing anything; all versions are recorded or none |
| Migrations.TakenOverIff | migrations/migrate.go:89-107 | it is taken over iff some run was prepared and its recording landed |
| Migrations.Runner.ApplyMigration | migrations/migrate.go:222-239 | SQL and version row land together or not at all |
| Migrations.Runner.Apply | migrations/migrate.go:74-120 | one run of the specification; the versions returned are those it executed, in order, except that one more may have landed with an error |
| Patcher.SentinelShape | internal/server/builder/builder.go:17-30 | a sentinel has 128 bytes, starts with TR, has every later T followed by I, and holds no NUL |
| Patcher.SentinelTexts | internal/server/builder/builder.go:20-30 | the three texts |
| Patcher.NoOverlap | internal/server/builder/builder.go:17-30 | two different sentinels never overlap in a binary |
| Patcher.SpliceKeepsOthers | internal/server/builder/builder.go:260-262 | overwriting one sentinel moves no other, and creates no new occurrence if no end of the padded value is an end of that sentinel |
| Patcher.PadThenTrim | cmd/trasker-client/main.go:53-56 | padding and trimming recover a value iff it does not end in a NUL |
| Patcher.ReplaceOne | internal/server/builder/builder.go:260-262 | overwrites the first occurrence, if there is one |
| Patcher.PatchRoundTrip | internal/server/builder/builder.go:238-265 | for a request that fits, the length is kept, only the three slots change, and start-up recovers the three values |
| Patcher.RoundTripIffFits | internal/server/builder/builder.go:238-265 | every generic binary round-trips a request whose values fit a slot iff no value ends in NUL and none shares an end with a sentinel still to be replaced by something else |
| Patcher.PlainValueFits | internal/server/builder/builder.go:17-30 | a value shorter than a slot clashes with no sentinel that lacks its first byte |
| Patcher.UnderscoreClashes | internal/server/builder/builder.go:260-262 | a value that starts with an underscore clashes with the sentinels replaced after the server address |
| Patcher.UnderscoreBreaks | internal/server/builder/builder.go:260-262 | for a server address that starts with an underscore, some binary with each sentinel once does not round-trip |
| Patcher.Builder.Store | internal/server/builder/builder.go:136-146 | caches a binary iff it holds the key's sentinel |
| Patcher.Builder.Patch | internal/server/builder/builder.go:238-265 | succeeds iff the target is cached and no value is too long; the cache is untouched, the length is kept, and requests that fit round-trip |
| Tagger.ExtractSignificantWords | internal/client/tagger/learner.go:130-150 | the lowered fields of more than three bytes, each once |
| Tagger.WordOccurs | internal/client/tagger/learner.go:130-150 | a significant word occurs in the lowered title and holds no slash, bracket or backslash |
| Tagger.WordsAreSeparated | internal/client/tagger/learner.go:130-150 | a word holds none of the separating characters and no space |
| Tagger.UnbrokenTitle | internal/client/tagger/learner.go:130-150 | a title without these is one word, in lower case, if it is long enough |
| Tagger.MatchesItself | internal/client/tagger/engine.go:90 | a plain pattern matches itself |
| Tagger.SeparatorNeedsSeparator | internal/client/tagger/engine.go:98 | a pattern without the platform's separator matches no name with one |
| Tagger.LiteralMatches | internal/client/tagger/engine.go:90 | a pattern without stars and question marks matches itself only |
| Tagger.WordBetweenStars | internal/client/tagger/engine.go:98 | a word between stars matches exactly the names that hold it and no separator |
| Tagger.LiteralRuleMatches | internal/client/tagger/engine.go:86-105 | a rule of literal patterns matches exactly its own application and title, in any case |
| Tagger.Evaluate | internal/client/tagger/engine.go:45-72 | none iff no rule matches; otherwise the first matching rule of the first tier that has one |
| Tagger.EvaluateTier | internal/client/tagger/engine.go:76-83 | the first matching rule of the tier |
| Tagger.WinnerBeats | internal/client/tagger/engine.go:45-72 | the winner is the user's before suggested, with a title before without, and first in the list among equals |
| Tagger.LearnCounts | internal/client/tagger/learner.go:51-82 | the counts are exactly the numbers of observations counting towards each key, and every added rule is backed by a key counted to the threshold |
| Tagger.LearnedRuleMatchesEvidence | internal/client/tagger/learner.go:103-109 | a learned rule matches a context counted towards it iff it is for the application alone or the title holds no separator of the platform |
| Tagger.LearnedRuleMatchesIff | internal/client/tagger/learner.go:103-109 | a learned rule matches exactly the contexts of its application, in any case, whose title holds its word and no separator |
| Tagger.LearnedRulesWork | internal/client/tagger/learner.go:85-127 | every learned rule is backed by its evidence and similar to no earlier rule, and evaluating any list that holds it never comes back empty for such a context without a separator |
| Tagger.EvidenceIsProposed | internal/client/tagger/learner.go:51-127 | as long as the store takes every rule, each key counted to a positive threshold has a similar rule in the end |
| Tagger.Learner.ObserveManualTag | internal/client/tagger/learner.go:51-82 | one observation takes the step of the specification |
| Tagger.Learner.ProposeSuggestion | internal/client/tagger/learner.go:85-127 | adds the rule unless a similar one exists or the store fails |
| Deadman.TracesAreRounds | internal/client/presence/deadman.go:106-190 | every trace is whole rounds of Tracking, Checking Tracking or Checking Paused Tracking, with at most one unfinished at the end |
| Deadman.TraceIsAnnounced | internal/client/presence/deadman.go:106-190 | every trace is Checking for each timer, Paused for each missed check, Tracking for each answer or focus change taken, in that order |
| Deadman.TierCountsEscalations | internal/client/presence/deadman.go:136-145 | the tier is the number of answers since tracking last started over, capped at the last interval |
| Deadman.WaitIsByAnswers | internal/client/presence/deadman.go:183-190 | the wait for the next check is the interval of the answers given since tracking started over, or the last one |
| Deadman.WaitsNeverShrink | internal/client/presence/deadman.go:183-190 | with non-decreasing intervals the wait for a check never gets shorter until tracking starts over |
| Deadman.EarlyAnswerIff | internal/client/presence/deadman.go:90-95 | in every run, a check that starts can be answered at once iff some answer so far has no later one taken |
| Deadman.EarlyAnswerIsKept | internal/client/presence/deadman.go:90-95 | an answer given before any check escalates at the first one |
| Deadman.NewDeadman | internal/client/presence/deadman.go:33-52 | refuses exactly the schedules that are empty or have a duration that is not positive |
| Deadman.Switch.OnReset | internal/client/presence/deadman.go:116-122 | a focus change starts over from the first tier |
| Deadman.Switch.OnTimer | internal/client/presence/deadman.go:124-126 | the timer starts a check |
| Deadman.Switch.OnAck | internal/client/presence/deadman.go:136-145 | an answer escalates during the countdown and starts over after a pause |
| Deadman.Switch.OnCountdownEnd | internal/client/presence/deadman.go:155-160 | no answer pauses tracking |
| Pomodoro.RunKeepsInv | internal/client/pomodoro/timer.go:96-194 | in every interleaving the current channel is open and every other watched channel is closed |
| Pomodoro.ChannelsAreSafe | internal/client/pomodoro/timer.go:96-194 | no channel is closed twice, at most one living goroutine has an open channel, and phases only make legal moves |
| Pomodoro.SessionRunsThrough | internal/client/pomodoro/timer.go:96-192 | from every reachable idle or done state, a session left alone is work, break, done |
| Pomodoro.IdleByCancelOnly | internal/client/pomodoro/timer.go:110-126 | a cancel makes the timer idle, nothing else does, and only a start ends that |
| Pomodoro.StaleExpiryIff | internal/client/pomodoro/timer.go:171-192 | in every reachable state a waking goroutine changes a phase that is not its own iff its channel is closed and the phase has the name of the one it timed |
| Pomodoro.StaleGoroutineEndsNewPhase | internal/client/pomodoro/timer.go:172-177 | a stale goroutine can end the next phase early |
| Pomodoro.Timer.StartWork | internal/client/pomodoro/timer.go:96-107 | starts work from idle or done only, without closing a closed channel |
| Pomodoro.Timer.CancelTimer | internal/client/pomodoro/timer.go:110-126 | closes the current channel once and goes idle |
| Pomodoro.Timer.EnterPhase | internal/client/pomodoro/timer.go:130-163 | closes the old channel, makes a new one and its goroutine |
| Pomodoro.Timer.PhaseExpires | internal/client/pomodoro/timer.go:171-192 | work leads to break and break to done, if the phase is still the goroutine's |

## Left out

- SQL text, drivers, connections, HTTP routing, authentication and platform calls: statements are modelled by their effect, requests by their outcome.
- JSON: a row holds what decoding its text gives back; the text itself is not modelled.
- SHA-256: the bytes fed to the hash stand for the digest.
- Times below a second, and time zones other than UTC.
- Database errors in the middle of a cascade: the model's reads and writes succeed.
- `CloseLatestOpenFocusEvent` (internal/client/store/focus_events.go:63-82): floating-point day arithmetic.
- Upgrades that add migrations between runs.
- Migrations.Discover: the file name pattern; a file carries the result of matching its name.
- LayoutDelivery.SyncedWasIngested: assumes that no id is reused while its batch is in flight; `CanLoseIffToMark` shows that this is needed.
- SubmissionQueue.Queue.ProcessOne: the rows of one submission are an input, as the tag and note joins can repeat an event; the loop over the due rows is not modelled, attempts come in any order.
- AutoSubmit.Database.RunOnce: saves, runs and manual submissions are single steps; what happens inside one of them when another interferes is not modelled.
- Aggregation.BuildAppSummary: gives the list of shares; its printed form, and the note's time format, are not modelled.
- Tagger.ExtractSignificantWords: letters outside ASCII are not lowered.
- Tagger.Evaluate: patterns with brackets, or with backslashes on platforms where these escape, are decided by an arbitrary predicate.
- Tagger.Learner.ProposeSuggestion: the suggestion channel is not modelled.
- Deadman: the state channel never blocks; the timers are events, their lengths are only compared.
- Pomodoro: phase lengths, ticks and the paused state.
