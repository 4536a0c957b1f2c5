# A verified model of the DMR monitor

This project models the parts of the live radio monitor whose correctness depends on order,
interleaving or crashes, and proves what they promise. It covers the crash-restartable log
migration, the event log with its two kinds of retention, the index that mirrors the log, the live
loop that retunes and pauses the decoder, the in-memory call and radio state with its snapshot
file, the talker graph, the alert rules, the decoder scheduler and the memory of the line parser.

Run `dafny verify dfyconfig.toml` with Dafny 4.11.

## How it is built

| file | models |
|---|---|
| `Prelude`, `Lex`, `IsoTime`, `Events` | options, sequences and counters; code-point order; calendar, instants and ISO text; the typed events |
| `RfControl`, `Supervisor` | the tuning object and its API calls; the live loop as a machine of atomic steps |
| `Migration` | file-system steps, crashes, operator and writer around `migrate_monolith` |
| `JsonLines`, `LogRetention` | the single-file log and its two-phase rewrite under concurrent appends |
| `DayPartition` | lazy day rollover, failing opens and writes, whole-file retention, the ring buffer |
| `History`, `Directory` | the linear scan; the scan of the directory that a run of appends and retention left |
| `EventIndex`, `Mirror`, `Aggregates` | the table behind the index, its agreement with the log, the counts on its columns |
| `Dossier`, `CallTracking`, `LiveState`, `RadioStory` | batch call segmentation, one call key, the whole live state, what a radio's entry stands for |
| `SnapshotFile` | atomic writes with a backup, and the load |
| `TalkerGraph`, `TalkerCounts`, `TalkerEdges`, `TalkerReport` | aggregation, what it counts, weights, and the returned graph |
| `Alerts`, `AlertSilence`, `AlertEvaluator` | the two threads and their rate limits; the cc_silent latch; the evaluator object and what its event rules react to |
| `Scheduler`, `LogParser` | the capped choice of channels; the parser's clock and SRC binding |

Where the program changes objects in place, the model is a class whose methods are tied to functions
on values, and the theorems are about those functions. Where it is concurrent, each stretch of code
between two awaits, two lock releases or two file-system calls is one step of a state machine, and
the theorems quantify over every sequence of steps.

## Assumptions

- Every JSON line that parses is an object; timestamps are naive, with a year of four digits not
  starting with zero (`strftime("%Y")` does not pad on every platform).
- Timestamps are printed with no fraction or with six fraction digits.
- Log text is UTF-8 with `\n` line ends, and characters of the model stand for bytes.
- No I/O error falls into the swap of the two-phase rewrite (there the program renames even when the
  copy of the tail failed).
- A rename that returned survives a power cut; so does a synced file, and so does the migration marker, which
  the program writes without syncing (a cut that kept the renames and lost the marker would make the next
  run refuse).
- Every log line is an event the program wrote, or junk.
- Blank lines, and digits in dates, are judged by the ASCII characters; Python's `strip` and `isdigit` also
  accept other Unicode spaces and digits.
- Alert rule ids are unique (the server assigns them).
- Within one process: a terminated or killed child exits in the end, and timers run out.
- Clocks, randomness, SIGTERM delivery, file errors and the answers of SQL ORDER BY among equal
  timestamps are parameters, so results hold for all of them.

## Where the code and its documentation part

- `prune_older_than`, in single-file mode (which the command line no longer selects), says appended tail
  lines are "guaranteed newer than the cutoff". A caller that appends events with old timestamps breaks
  that (`OldTailIsKept`); `PrunedFileIsRecentIff` gives the exact condition.
- In day mode the same method deletes index rows by instant and files by date, so the cutoff's own day file
  keeps events that the index has lost (`CutoffDayIsMixed`); `AgeRetentionInDayModeIff` says exactly when
  log and index still agree.
- `_evaluate_tick` re-checks its latch so as not to "fire twice", but the latch is taken in one block and
  the firing recorded in a later one. A heartbeat between the two re-opens the latch, and then a rule can
  fire twice with no control-channel event between the firings (`TwoFiringsInOneOutage`), never three
  times. `FiresAgainIff` gives the exact condition. It does not force the second firing into the same
  outage (`LateFiringMayEndItsOutage`).
- The same method does not look at the heartbeat again when it takes the latch:
  `LateHeartbeatDoesNotStopAlarm` is a run with an alarm raised although the control channel had just
  returned, `AlarmIsTrueIff` says when the alarm is true.
- A keyup rule is meant to fire once for each call. A radio that keys up again to the same talkgroup, with
  no other watched call on the slot in between, is not reported again, however long the pause
  (`RepeatedKeyupIsSilent`); `KeyupFiresOnSession` gives the exact condition.
- The live state and the dossier segment calls alike unless something was handled between two frames of one
  call that was already two seconds later than the first (`OnlineAgreesWithBatchIff`, `LateTickSplitsCall`).
- Day retention spares the open file, and one it cannot unlink, but not their rows (`OpenDayIsSpared`);
  `DayRetentionAgreesIff` says exactly when log and index still agree.
- `migrate_monolith` calls the renamed legacy file a backup; a second legacy file that appears before a
  crashed run is resumed replaces it (`ResumeRetiresWhateverIsThere`). `CopyIsKeptIff` gives the exact
  condition.
- `EventLog.recent` stops at the first event older than `since`, so an old event appended after a newer one
  hides it (`EarlyStopMisses`); `EarlyStopIsCompleteIff` says when it misses nothing. Called with a limit of
  zero, which the HTTP handler refuses, it returns one event.

## Model

| member | source | states |
|---|---|---|
| RfControl.RfController.SetTuning | backend/rf/control.py:78-121 | a request is accepted exactly under the listed conditions; a refused one changes nothing, an accepted one replaces the tuning, keeps `live_enabled` and sets the retune event even if saving fails |
| RfControl.RequestsCompose | backend/rf/control.py:94-116 | a request naming nothing keeps the tuning, one naming everything replaces it, and two requests in a row are one in which the later fields win |
| RfControl.RfController.SetLiveEnabled | backend/rf/control.py:123-128 | the toggle event is set, and a failed save remembered, exactly when the value changes |
| RfControl.AcceptedStaysBuildable | backend/rf/control.py:94-116 | no accepted request leaves a tuning without the frequency its command needs, and nothing else is refused |
| Supervisor.EveryReachableStateIsSafe | backend/cli.py:395-429 | over every interleaving: a command in use is current or the retune event is set, no pause or resume is lost, at most one child is alive |
| Supervisor.InvStep | backend/wrapper.py:224-263 | every single step of any actor keeps the inductive invariant behind that |
| Supervisor.SpawnIsClean | backend/wrapper.py:224-235 | every spawn happens with no other child alive, with the tuning of that moment and with the session not stopped; a fresh session starts with no retune pending |
| Supervisor.TerminationHasCause | backend/wrapper.py:100-160 | over every interleaving, a child gets SIGTERM or SIGKILL only if since its session began there was a tune request, a pause or resume that changed something, a stop, a silence, or an end of its own |
| Supervisor.RepeatedRequestChangesNothing | backend/rf/control.py:123-128 | where the loop rests, requests for what is already so change nothing: a reading child goes on reading |
| Supervisor.QuiescentServesLatestRequest | backend/cli.py:395-429 | where no program step is possible, the loop is done iff stopped, paused iff paused, and otherwise runs one child on the current tuning |
| Supervisor.SettlesOnLatestRequest | backend/wrapper.py:100-164 | after requests and outside events cease, at most 53 own steps remain, and the loop rests serving the latest request |
| Supervisor.CanSettle | backend/wrapper.py:224-263 | from every reachable state the program's own steps lead to such a rest; it never blocks |
| Supervisor.RankDecreases | backend/cli.py:366-374 | each own step, wake-ups included, makes progress |
| Migration.NeverClobbers | backend/export.py:89-109 | with crashes, restarts, operator moves and the writer interleaved, no rename targets an existing day file and no day file ever loses a line |
| Migration.DisjointStep | backend/export.py:169-177 | while the marker exists, staged names and present day files are disjoint, after every step |
| Migration.MigrationSurvivesCrashes | backend/export.py:66-166 | after any number of runs crashing anywhere, a run that gets through leaves each non-blank line in exactly its bucket, in legacy order, and the legacy content under `.migrated` |
| Migration.LinesAreInTheirDay | backend/export.py:28-59 | after any crashes and a run that gets through, each line that shows anything is in the file of the day its stamp begins with, an undated one in unknown-date, and the files hold only such lines |
| Migration.EventsAreInTheirDay | backend/export.py:47-59 | each logged event is in the file of its own date |
| Migration.NextRunGetsThrough | backend/export.py:85-109 | after any crash history the next run is not refused; left alone it takes a bounded number of steps, is never stuck, and ends serving |
| Migration.LegacyNeverLost | backend/export.py:77-84 | at every moment of every crashing history the whole legacy content is intact under its old or new name |
| Migration.SplitIsFaithful | backend/export.py:131-140 | a bucket file exists exactly for buckets with lines and holds those lines in order |
| Migration.SplitLosesNothing | backend/export.py:131-140 | all buckets together hold each non-blank line exactly once |
| Migration.CopyIsKeptIff | backend/export.py:175-176 | over any steps of runs, crashes, operator and writer the `.migrated` copy stays what it is iff no run retires a legacy file of other content |
| Migration.ResumeRetiresWhateverIsThere | backend/export.py:89-95 | a run from the untouched start in which a legacy file put in place before a resumed run replaces the earlier `.migrated` copy |
| Migration.Disk.MigrateMonolith | backend/export.py:66-166 | one uninterrupted run ends, is a run of the step machine, refuses or does nothing exactly when it should, and reports the right counts of files, lines, unknown dates and days |
| Migration.Disk.FinishMigration | backend/export.py:169-183 | the rename phase puts every staged file in place, retires the legacy file and removes the marker |
| Migration.Disk.BucketLines | backend/export.py:117-149 | the bucketing loop stages exactly the split of the lines and counts lines and unknown dates |
| IsoTime.IsoOrderIsTimeOrder | backend/event_index.py:332-337 | comparing ISO texts is comparing instants, with and without fraction mixed |
| IsoTime.DayTextOrder | backend/event_log.py:179-186 | comparing day texts is comparing dates |
| IsoTime.DayPrefix | backend/event_index.py:129-134 | the first ten characters of a timestamp are its day and have the accepted shape |
| LogRetention.EventLog.PruneOlderThan | backend/event_log.py:517-609 | with any appends before each line the reader asks for and before the swap, the final file is the surviving old lines followed by every later line, none lost, doubled or torn; the writer is open on it and the counts are right |
| LogRetention.EventLog.RewriteSampled | backend/event_log.py:527-548 | the reader keeps exactly the survivors of the sampled text while appends land before every line it reads |
| LogRetention.EventLog.Append | backend/event_log.py:673-675 | an append extends the open file by one line and does nothing without a writer |
| LogRetention.SurvivalIsByInstant | backend/event_log.py:544-546 | the text filter keeps exactly events at or after the cutoff instant |
| LogRetention.SampledLinesKept | backend/event_log.py:537-548 | of the sampled part exactly the lines with a timestamp string at or after the cutoff are kept; unreadable lines go |
| LogRetention.PrunedFileIsRecentIff | backend/event_log.py:571-582 | the pruned file is free of old lines iff no old line arrived during the rewrite |
| LogRetention.OldTailIsKept | backend/event_log.py:571-582 | an instance: an event of 2024 appended during a rewrite with a cutoff in 2025 |
| DayPartition.EventLog.Append | backend/event_log.py:658-688 | file, writer, error count and ring buffer after an event, with opens and writes failing |
| DayPartition.EventLog.EnsureDayWriter | backend/event_log.py:321-333 | the open writer is always the writer of its day; a failed open leaves none |
| DayPartition.WrittenIff | backend/event_log.py:658-688 | an event reaches its file iff its write works and its day's file got open, at this append or an earlier one of the day with none of another day in between |
| DayPartition.EventLog.UnlinkDayFilesBefore | backend/event_log.py:611-633 | exactly the earlier day files go, other than the open one and those whose unlink fails; the number of files and the bytes freed are right |
| DayPartition.EventLog.Recent | backend/event_log.py:705-725 | the answer is the newest matching events of the longest end of the ring that holds nothing before `since` |
| DayPartition.OfTypesMeans | backend/event_log.py:705-725 | the filter on types keeps exactly the events of those types |
| DayPartition.EarlyStopIsCompleteIff | backend/event_log.py:716-718 | that end holds every event at or after `since` iff no older event was appended after one of them |
| DayPartition.EarlyStopMisses | backend/event_log.py:716-718 | an instance: a newer event hidden by an older one appended after it |
| DayPartition.FilesHoldTheirDay | backend/event_log.py:662-669 | a day file only ever holds events of its own date |
| DayPartition.DayFileIsSubsequence | backend/event_log.py:658-675 | with dates moving either way and failures anywhere, the file of a kept day is exactly the written events of that date, in order |
| DayPartition.RetentionRemovesOldDays | backend/event_log.py:635-645 | retention empties every earlier day but the open one and those that cannot be unlinked, and leaves later days untouched |
| DayPartition.FilesAreKept | backend/event_log.py:611-675 | after any appends, failures and retention each day file is, in order, that day of the events written and not retained away |
| History.StreamHistory | backend/event_log.py:150-225 | the scan returns exactly the matching events in file order; skipping whole files by name changes nothing |
| History.ScanMeans | backend/event_log.py:179-225 | the scan keeps exactly the events of the window of instants and calendar days, of the wanted types, from and to the wanted radios |
| Directory.ScanDirectory | backend/event_log.py:174-225 | after any run of appends, failures and retention, the scan of the directory is the matching kept events, day by day; in order of writing while time moves forward |
| Directory.QueryAgreesWithDirectory | backend/event_index.py:358-380 | after any run of appends, a query on the rows of what was written is a permutation of the directory scan, and the same in order, or reversed, while time moves forward |
| History.ByDaysIsPermutation | backend/event_log.py:163-170 | splitting events by day and reading the files back loses and doubles nothing |
| History.ByDaysIsIdentity | backend/event_log.py:163-170 | while time moves forward the directory reads back in the order of writing |
| EventIndex.WhereIsKeeps | backend/event_index.py:320-356 | the WHERE clause on text columns selects exactly the events the scan selects by instant |
| EventIndex.QueryRefinesScan | backend/event_index.py:358-380 | a query in either direction is a permutation of the scan for every tie order, and the very scan, or its reverse, with limit and offset a slice when timestamps strictly increase |
| EventIndex.PageOfScan | backend/event_index.py:358-380 | while timestamps strictly increase a page holds, one for one, the scan's events from the offset on, or from its back |
| EventIndex.PageIsOrdered | backend/event_index.py:373-380 | for any history and tie order a page is in time order, oldest or newest first |
| EventIndex.QueryRefinesDirectoryScan | backend/event_log.py:174-225 | the same between live appends and the day files read in name order |
| EventIndex.EventIndex.Append | backend/event_index.py:273-300 | a row is added with its extracted columns; at most 99 rows are ever uncommitted |
| Aggregates.PairRowsAreEvents | backend/event_index.py:459-476 | the rows that pair_counts groups are, column for column, sender, target, type and addressing of the matching events |
| Aggregates.ErrorCounts | backend/event_index.py:137-167 | counting rows by error type counts the quality events of that kind |
| Aggregates.EncryptionCounts | backend/event_index.py:137-167 | counting encrypted rows by slot and channel counts the encryption events there |
| EventIndex.EventIndex.DeleteInChunks | backend/event_index.py:871-884 | with any appends and a close between the chunks, the loop removes exactly the dead rows, keeps the others in order, returns their number, stops after the first chunk that is not full or at a close, and ends for every positive chunk size |
| EventIndex.EventIndex.PruneOlderThan | backend/event_index.py:852-884 | exactly the rows before the cutoff timestamp go, late arrivals included; a closed index is left alone |
| EventIndex.EventIndex.PruneDaysOlderThan | backend/event_index.py:688-716 | exactly the rows of earlier days go, late arrivals included; a closed index is left alone |
| EventIndex.EventIndex.RebuildFromJsonl | backend/event_index.py:720-826 | for any batch size and split into files the table holds one row for each logged event, in file order |
| EventIndex.RebuildMatchesLive | backend/event_index.py:747-826 | a rebuild from day files gives the rows the live appends gave, in the same order while time moved forward |
| EventIndex.PrunesByInstant | backend/event_index.py:852-862 | both prunes are by instant and by date, and the day prune never removes more |
| Mirror.AgePruneKeepsMirror | backend/event_log.py:517-548 | on the single file, retention by age keeps the same events in the rewritten file and in the index |
| Mirror.AgeRetentionInDayModeIff | backend/event_log.py:498-515 | in day mode a query for a day agrees with its file iff, below the cutoff's date, no file with events was spared and, from that date on, no event of the day is older than the cutoff |
| Mirror.CutoffDayIsMixed | backend/event_log.py:508-515 | an instance: an event of the cutoff's date before its hour stays in the file and leaves the index |
| Mirror.DayRetentionAgreesIff | backend/event_log.py:619-654 | after day retention a query on the remaining index rows for a day agrees with its file iff the day is not below the cutoff with events in a file that was open or could not be unlinked |
| Mirror.IndexAfterDayPrune | backend/event_index.py:688-716 | the index rows left are the rows of the events from the cutoff day on |
| Mirror.OpenDayIsSpared | backend/event_log.py:624-625 | an instance: the writer still stands on an old day when retention runs |
| Mirror.ScanWindow | backend/event_log.py:942-959 | the scan branch of the quality window tallies exactly the events since its start |
| Mirror.WindowBranchesAgree | backend/event_log.py:924-959 | the index branch gives the same counts by type and kind, the same sample size and the same bounds |
| Dossier.GroupCalls | backend/dossier.py:31-70 | the loop computes the sessions |
| Dossier.SessionsAreMaximalRuns | backend/dossier.py:32-37 | the sessions cut the readable frames, in order and without remainder, into maximal runs of one call with gaps of at most two seconds |
| CallTracking.OnlineAgreesWithBatchIff | backend/state.py:399-460 | on one slot of an untagged stream in any order of time, the live state makes one call more than the dossier has sessions for each pair of frames it cuts, and calls and sessions agree, frame counts included, iff it cuts none |
| CallTracking.OnlineAgreesWithBatch | backend/dossier.py:31-70 | in time order, with no tick later than an event after it, the calls of the live state and their frame counts are the sessions of the dossier |
| CallTracking.LateTickSplitsCall | backend/state.py:256-258 | an instance: a tick three seconds after a frame, handled before the frame one second after it, makes two calls of one session |
| CallTracking.CallbacksAlternate | backend/state.py:416-460 | start and end callbacks alternate for each call key, and each end is about the call started before it |
| CallTracking.BalanceIsActivity | backend/state.py:399-460 | starts minus ends is one exactly when the key is active |
| CallTracking.LiveCallTellsItsStory | backend/state.py:416-460 | in any run the live call is what came since the frame that started it: its frames, their number and last time, the last rest channel told, encrypted iff an encryption event of the key came |
| CallTracking.OtherKeysOnlyExpire | backend/state.py:358-364 | an event of another channel or slot does no more than expire a call |
| LiveState.StateManager.Apply | backend/state.py:209-245 | an event touches exactly the radios it names, in order, and marks them as its handler says; the cap holds, keys match ids, live plus evicted equals created, and each call key moves as the single-key machine says |
| RadioStory.RadioTellsItsStory | backend/state.py:366-379 | for a radio in the table ever since its entry was made: frame count, last talkgroup and slot are those of its frames, IP that of its last mapping, times and channel those of its touches, and the flag says whether an encryption event met a live call of its own after its last new call |
| RadioStory.RunIsChain | backend/state.py:209-245 | any run of events and ticks is a chain of such touches and marks |
| RadioStory.Replay | backend/state.py:209-258 | the state manager fed with any events and ticks makes such a run, each call key following the single-key machine |
| RadioStory.TouchedAreNamed | backend/state.py:416-500 | an event touches exactly its source, the radio of a mapping, and the target of an individually addressed preamble or a location request |
| LiveState.StateManager.ExpireIdleCalls | backend/state.py:399-412 | exactly the stale calls end, each with one callback |
| LiveState.StateManager.OnVoiceCall | backend/state.py:416-460 | a frame touches and counts on its speaker, clearing the encryption flag for a new call; it continues its call or ends it and starts another, on its key only; placeholders do nothing |
| LiveState.StateManager.TouchRadio | backend/state.py:366-379 | a known radio changes in last-seen, which only grows, and channel; a new one enters with its times, or a full table makes room by dropping its oldest; both counters follow |
| LiveState.StateManager.EvictRadios | backend/state.py:381-397 | the batch has the stated size and no survivor was heard of earlier than a removed radio |
| LiveState.OneTouchKeepsFresher | backend/state.py:366-397 | after one touch, with any eviction it causes, no radio left in the table was heard of earlier than a removed one |
| LiveState.EventKeepsFresher | backend/state.py:366-397 | over all the radios an event touches the same holds, except for the event's own radios when the event itself is older than the removed one |
| LiveState.StateManager.Restore | backend/state.py:335-345 | a small table is kept whole; an oversized one loses its oldest radios, as many as the overshoot or the batch, and they are counted |
| LiveState.EvictionsAreSpaced | backend/state.py:366-397 | over any run of touches and marks from a table within the cap, at least max(1, cap // 20) radios are created from after one eviction up to the next |
| LiveState.EventIsHistory | backend/state.py:209-245 | what every event does to the table is such a run |
| SnapshotFile.Snapshot.AtomicWriteText | backend/state.py:45-74 | the two files after a write cut short at any step, a crash tearing whatever is not synced; both always hold synced content |
| SnapshotFile.Snapshot.LoadSnapshot | backend/state.py:325-346 | the first existing, non-empty, parsable file of the two |
| SnapshotFile.LoadRecoversLastWrite | backend/state.py:310-346 | once a write completed, the load recovers it or a later interrupted write, over any sequence of writes cut short anywhere |
| SnapshotFile.BackupHoldsPrevious | backend/state.py:63-67 | a damaged main file is read as the content it replaced, with the exact exception a swallowed backup error makes |
| TalkerGraph.GroupedEqualsRowByRow | backend/network.py:66-100 | for any rows and any order of the groups the grouped aggregation gives the accumulators of the row-by-row loop |
| TalkerGraph.PullOut | backend/event_index.py:459-476 | rows of one group can be counted at once, with their number and latest timestamp |
| TalkerCounts.KeyupsAreRows | backend/network.py:30-41 | a radio's keyups on a talkgroup are its voice rows and group-addressed preamble and header rows there |
| TalkerCounts.DirectIsRows | backend/network.py:94-95 | a pair's direct count is its location requests and individually addressed rows in that direction |
| TalkerCounts.CallsAreRows | backend/network.py:89-98 | a radio's calls are the rows it sent and the private rows it was sent |
| TalkerCounts.SeenIsLatestRow | backend/network.py:90-100 | a radio's last-seen is the latest timestamp of the rows that name it |
| TalkerEdges.GroupWeights | backend/network.py:102-115 | a group edge for each pair sharing a talkgroup, weighing the sum over talkgroups of the smaller keyup count |
| TalkerCounts.GroupWeightBounds | backend/network.py:102-115 | a group edge weighs at least one for each talkgroup both radios have rows on and no more than either radio's rows |
| TalkerEdges.PrivateWeights | backend/network.py:117-121 | directions are collapsed and the total is conserved |
| TalkerCounts.PrivateWeightIsRowCount | backend/network.py:94-100 | the total private weight is the number of private rows with both ids non-zero |
| TalkerReport.ComputeTalkerPairs | backend/network.py:44-174 | the returned edges are exactly the heaviest ones at or above the minimum, each once; the nodes are exactly their endpoints with the right totals |
| TalkerReport.GraphIsRowByRowGraph | tests/test_sql_aggregation.py:93-155 | edge for edge and node for node this is what the row-by-row reference defines |
| Alerts.RateHoldsInEveryWindow | backend/alerts.py:404-417 | over every interleaving any window of length T holds at most T / cooldown + 1 firings of a keyup, encryption or quality rule |
| Alerts.CooldownIsRested | backend/alerts.py:404-417 | in every reachable state the cooldown test passes iff every recorded firing of the rule lies at least the cooldown back |
| Alerts.QualityFiresIff | backend/alerts.py:365-400 | in any run a quality rule fires on a tick iff every recorded firing lies at least its cooldown back and the rate is a spike |
| Alerts.HeartbeatsAreThreeTypes | backend/alerts.py:258-265 | site, slot and channel status restart the silence clock and reopen the latches; nothing else does |
| AlertSilence.SilenceFiresOncePerOutage | backend/alerts.py:336-363 | over every interleaving, two recorded firings of a cc_silent rule have a control-channel event between them unless one fell between the first one's latch and its recording, and of three firings the outer two always have one between them |
| AlertSilence.FiresAgainIff | backend/alerts.py:345-350 | just after a firing was recorded, the rule can fire again with no control-channel event in between iff one fell between its latch and its recording |
| AlertSilence.TwoFiringsInOneOutage | backend/alerts.py:421-428 | such a run from the start, with both firings recorded after the last control-channel event |
| AlertSilence.LateFiringMayEndItsOutage | backend/alerts.py:421-428 | a run in which the first firing was recorded late and the second still comes after another control-channel event |
| AlertSilence.AlarmIsTrueIff | backend/alerts.py:341-363 | whatever events are handled between the two blocks of a check that passed, the alarm is raised, and it is true iff no control-channel event came in between or the last one is itself older than the timeout |
| AlertSilence.LateHeartbeatDoesNotStopAlarm | backend/alerts.py:341-363 | a run from the start with a false alarm, whose latch keeps the rule quiet until the next heartbeat |
| AlertEvaluator.Evaluator.OnEvent | backend/alerts.py:252-275 | the shared state after an event: the caches, then each enabled rule evaluated once in list order, its firing recorded before the next |
| AlertEvaluator.Evaluator.Tick | backend/alerts.py:277-292 | the same for a tick with its time and the outcome of the quality queries |
| AlertEvaluator.OnEventIsRun | backend/alerts.py:252-275 | that is a run of the event thread of the machine, whatever the tick thread is doing, with each enabled event rule evaluated once |
| AlertEvaluator.TickIsRun | backend/alerts.py:277-292 | a tick is a run of the tick thread, whatever the event thread is doing |
| AlertEvaluator.Evaluator.EvaluateEvent | backend/alerts.py:296-334 | the state and firing of one rule on one event |
| AlertEvaluator.Evaluator.SilenceCheck | backend/alerts.py:337-349 | the first block passes exactly for an unlatched rule and a long enough silence |
| AlertEvaluator.OwnTurnOnly | backend/alerts.py:269-275 | through all rules, what one event rule remembers and fires is as if it were the only rule |
| AlertEvaluator.AddsWhatItReturns | backend/alerts.py:269-275 | handling an event adds to the record exactly the firing that each event rule's evaluation returns |
| AlertEvaluator.AlwaysFollows | backend/alerts.py:252-310 | in any interleaving of the two threads the evaluator remembers, for each slot, the last watched call the rule was evaluated on and the last call heard |
| AlertEvaluator.KeyupFiresOnChange | backend/alerts.py:296-312 | in any interleaving, with tick blocks between the blocks of an event, a keyup rule fires exactly on a watched frame whose call differs from the last watched one on the slot, when every recorded firing of the rule lies at least the cooldown back |
| AlertEvaluator.KeyupFiresOnSession | backend/alerts.py:296-312 | in terms of dossier sessions: never inside one, and on its first frame exactly when the latest session of a watched radio on the slot was another call and every recorded firing lies at least the cooldown back |
| AlertEvaluator.RepeatedKeyupIsSilent | backend/alerts.py:300-303 | an instance: the same call again after the gap and the cooldown makes two sessions and one firing |
| AlertEvaluator.EncryptionJoinsLastCall | backend/alerts.py:314-332 | in any interleaving an encryption rule fires exactly on an encryption event whose slot last heard a call to a wanted talkgroup, with every recorded firing at least the cooldown back |
| Scheduler.TrafficScheduler.ActiveLabels | backend/rf/scheduler.py:107-130 | all control labels, the stated size, and no dropped label fresher than a kept one that is not control |
| Scheduler.TrafficScheduler.OnEvent | backend/rf/scheduler.py:72-92 | an event bumps its own channel or the granted channels, and never a rest channel |
| Scheduler.TrafficScheduler.UpdateEnergy | backend/rf/scheduler.py:94-103 | exactly the channels at or above the threshold are bumped |
| Scheduler.GrowsWithCap | backend/rf/scheduler.py:120-129 | a larger cap keeps everything a smaller one keeps |
| Scheduler.ChoiceIsUnique | backend/rf/scheduler.py:107-130 | the choice depends on the recorded activity alone |
| Scheduler.ChoiceBySightings | backend/rf/scheduler.py:107-130 | a further channel is kept only if it was seen at most the hang time ago, and one that was and is left out was seen before each kept one, ties by label |
| Scheduler.LabelsAreOfTraffic | backend/rf/scheduler.py:72-92 | an event counts for the channel its traffic was heard on, or for the channels granted to active slots or by a bank call |
| Scheduler.ArrivalOrderDoesNotMatter | backend/rf/scheduler.py:65-70 | the same sightings in any order leave the same record |
| LogParser.Parser.UpdateTimestamp | backend/parser.py:200-211 | the date is kept or advanced by one day |
| LogParser.Parser.ParseLine | backend/parser.py:169-196 | the clock never goes back; a position carries the bound radio and consumes the binding |
| LogParser.ClockIsRightIff | backend/parser.py:200-211 | with the first date right, every rebuilt time is true iff true sync times never decrease and lie less than a day apart |
| LogParser.PositionTakesLatestSource | backend/parser.py:321-345 | a position is attributed to the latest SRC line since the previous position, to none iff there is none, and the line reaches no later position |

## Left out

- HTTP and WebSocket handlers, the web pages, shell scripts, health probes: I/O without a deep property.
- DSP, capture and channelizer: floating-point signal processing and hardware.
- Regular expressions of the parser: lines arrive already classified.
- SQL text, JSON and CSV encoding: rows and events are values, payloads are equal up to spelling.
- `normalize_frequency`: its six significant digits allow no round trip; it is a parameter, and a command is identified with the tuning it is built from.
- Multi-channel mode, recordings, channel-plan geometry and verdict thresholds: simple next to the rest.
- `StateManager.reset` and `/api/reset`: reset clears calls without end callbacks and removes a backup name other than the one that atomic writes create.
- Position trails, LSN states and quality counters of the live state: straightforward bookkeeping.
- Rule editing in the alert evaluator: the results are about rules that stay installed, with the one tick thread the program starts.
- LogRetention.EventLog.PruneOlderThan: I/O errors inside the swap are not modelled, and the index is pruned separately (`Mirror.AgePruneKeepsMirror`).
- EventIndex.EventIndex.RebuildFromJsonl: a line with a type and an unreadable timestamp, which the rebuild inserts and the scan skips, and one with a timestamp and no type, which the scan yields and the rebuild skips, are not modelled; the program writes neither.
- Migration.Disk.MigrateMonolith: renames in any order instead of name order, which gives the same files; a legacy path that is a directory counts as absent.
- AlertEvaluator.Evaluator.OnEvent: the ring of recent firings and the WebSocket queues are left out.
- CallTracking.OnlineAgreesWithBatchIff: the dossier reads its rows by timestamp; the frames here are in order of arrival, which is the same when the slot's own frames do not go back in time.
- Supervisor.EveryReachableStateIsSafe: cancellation of the main task itself is not modelled.
