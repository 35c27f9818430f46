# Verified models of the LingTai kernel's concurrent and incremental cores

Thirteen small algorithms of the agent runtime carry guarantees that tests can only sample:
they are about every interleaving, every crash point, every file content. This project
models each one in Dafny, close to its code, and proves those guarantees for all inputs and
all runs.

| module | what it models |
|---|---|
| `CoherentRead` | the verify-and-retry read of the notification directory against concurrent producers |
| `NotificationDelay` | the crash-recoverable consumer delay: one durable record, one alarm mirror |
| `DaemonAttention` | the daemon batch odometer and the mask that makes one wake edge of many writes |
| `Dismissal` | compare-and-swap dismissal against the delivered version, end to end with the coherent read |
| `HookRegistry` | the stat-stamped in-memory mirror of the on-disk hook registry |
| `SearchWalk`, `SearchResults` | the parallel grep and glob workers as interleaved atomic steps, and what is made of their matches |
| `DispatchLedger`, `LedgerCodec` | the append-only ledger: chunked backward readers, forward reader, sequence allocator; a codec that meets its hypotheses |
| `CodexRefresh` | the cross-process token refresh: lock, re-read, conditional post, replace (RFC 6749, sections 6 and 10.4) |
| `SessionRebuild` | the bounded reverse scan and the full forward scan of `events.jsonl` |
| `Jsonc` | the comment pass and the trailing-comma pass in front of the JSON parser |
| `AccountDraw` | weighted account sampling, in exact arithmetic |
| `JsonFinite` | the cycle-safe search for non-finite floats |
| `PresetMaterialize` | substituting the active preset into init.json |
| `Common`, `Fingerprints` | JSON values, string order, sorted fingerprint tuples |

`dafny verify dfyconfig.toml` checks everything.

## How the models are built

- An object that changes its fields is a class whose methods are proved against
  specification functions: the notification store reader, the delay store, the dismissing
  agent, the ledger, the loaded init.json. A loop over variables is a method with
  invariants. Lemmas then say what the specification functions mean.
- Code whose point is interleaving is a step machine. `HookRegistry`, `CodexRefresh` and
  `SearchWalk` have one action per atomic effect; a run is any action sequence, and a
  disabled action changes nothing, so the sequences are exactly the schedules of any number
  of threads, processes or workers.
- `CoherentRead` takes producers as an arbitrary timeline of directory contents and gives
  every listing and every single file read its own instant: `daemon` first, then the listing,
  then the files it named. At a `broken` instant the file system raises: a
  listing raises with it, the error of a single file is swallowed and the file looks absent.
- `NotificationDelay` keeps a ghost journal of durable writes. Every write may be the last
  of its process; `Safe` is stated on the journal and so spans all process lifetimes.

Inputs that the code takes from outside are parameters: clocks, file contents, hash, JSON
decoder, preset loader, random draw. What is assumed of them stands in `requires` clauses:
an injective content hash, a codec that reads back the records that are
written and puts no newline in a record, an atomic replace, a lock that excludes.

## Where the code and its documentation disagree

The models follow the code.

- `coherent_attention_read` says that matching bookend fingerprints prove nothing was
  rewritten in between (src/lingtai/kernel/notifications.py:1081-1083). A pass lists the
  directory and then reads the listed files one by one, so contents that change and come
  back can match. `BookendsPinIffNoFalseMatch` says exactly for which histories the
  bookends prove that the observation is one directory; it is enough that no visible channel
  returns to an earlier content during the read (`NoRecurrenceSuffices`). A file read that
  raises is swallowed by the store, so the result also assumes that none did.
- The delay's overdue check only sees `active` records, so an `expiring` record is not
  protected (src/lingtai/kernel/notifications.py:688-695). One process never meets one
  there. `StartLosesAlarmIff` says exactly when a starting delay loses an alarm, and
  `CrashedExpiryIsLost` that a second process dying mid-call brings any overdue delay there.
- The hook mirror trusts a repeated stat (src/lingtai/kernel/notifications.py:1220-1221).
  `NeverStaleIffHarmless` says for which registry histories that is safe.
- `_last_line` stops at the first 8192-byte chunk that holds any newline
  (src/lingtai/kernel/daemon_dispatch.py:129-130), so it returns the final record exactly
  when that record fits together with the newlines after it; `LastLine` states the
  condition both ways.
- The reverse session scan cuts lines with `splitlines()`, the forward scan at line ends
  only. The log writer does not escape U+2028 and its kin
  (src/lingtai/kernel/services/logging.py:128-145), so the two can disagree. `TiersAgreeIff`
  gives, for every file and every bound, the exact condition under which they agree for every
  decoder; for one given decoder it is sufficient. Text before the bounded view may be
  anything.
- `_strip_trailing_commas` keeps `pos` before a string that never closes and then appends
  that text twice (src/lingtai/kernel/config_resolve.py:95); `DoubledIffUnclosed` says
  exactly when.
- Materialising twice is materialising once, except for a preset whose own skills paths
  mix a string with a list or an object, which raises on the second run only
  (src/lingtai/kernel/presets.py:574-578); `TwiceIsOnce` has the exact condition.

## Model

| member | source | states |
|---|---|---|
| CoherentRead.Store.Fingerprint | src/lingtai/adapters/posix/notification_store.py:462-491 | one unlocked pass returns the sorted fingerprint of the files it could read; unless one of its own file reads raised, `daemon` was as shown before the listing, every listed file at some instant after it, and every other file was absent from the listing; it fails only if the listing raised |
| CoherentRead.Store.Snapshot | src/lingtai/adapters/posix/notification_store.py:431-460 | the same for decoded payloads: malformed JSON is skipped, bytes that are no text make the pass raise |
| CoherentRead.FingerprintDeterminesView | src/lingtai/kernel/notifications.py:1112-1123 | under an injective hash a fingerprint names at most one set of files |
| CoherentRead.BookendsPinOneInstant | src/lingtai/kernel/notifications.py:1112-1125 | matching list-then-read passes around a snapshot pass, where no false match is possible, all show the one directory that existed when the first pass ended |
| CoherentRead.BookendsPinIffNoFalseMatch | src/lingtai/kernel/notifications.py:1080-1084 | over all runs of the three passes in a window: matching bookends always show one directory of it if and only if, channel by channel, wherever passes listing before and after an instant may match at all, the only look they can share is the one of that instant |
| CoherentRead.FalseMatchDefeatsBookends | src/lingtai/kernel/notifications.py:1080-1084 | any other look they can share is met by some run whose bookends match around a snapshot that differs from them |
| CoherentRead.NoRecurrenceSuffices | src/lingtai/kernel/notifications.py:1080-1084 | no false match is possible where no visible channel returns to an earlier content |
| CoherentRead.RecurrenceDefeatsBookends | src/lingtai/kernel/notifications.py:1080-1084 | whenever the visible directory changes and comes back, three untorn passes have matching bookends around a snapshot that differs |
| CoherentRead.RecurrenceMayBeHarmless | src/lingtai/kernel/notifications.py:1080-1084 | a single returning channel need not do so: a history where another channel gives the change away |
| CoherentRead.CoherentAttentionRead | src/lingtai/kernel/notifications.py:1056-1136 | a stable result is the payloads and the fingerprint of one single instant of the attempt that decided it, for every interleaving with publishes and clears, unless a file read of that attempt raised or a false match was possible in it; there are one to three attempts, each begun because something changed during the one before; an undisturbed attempt settles the answer, and an unstable answer comes after three disturbed ones or a failure; stable or not, the fingerprint is that of the last pass of the last attempt; without a threshold and a daemon delay the wake fingerprint is the raw one, byte for byte, and otherwise one token stands for the daemon and every other entry shows as it is; only filtered channels appear |
| CoherentRead.ReadWithRetries | src/lingtai/kernel/notifications.py:1110-1127 | the bounded retry: an attempt nothing disturbs is the last, an abandoned one was disturbed, and a failing one leaves the fingerprint of the attempt before |
| CoherentRead.ReadOnce | src/lingtai/kernel/notifications.py:1112-1117 | one attempt: three passes in a row; undisturbed, its bookends match, and it raises only over an unreadable directory or bytes that are no text |
| CoherentRead.DaemonEntryIsTheDaemonFile | src/lingtai/kernel/notifications.py:1003-1014 | the one entry the mask may touch is that of the daemon channel's own file |
| NotificationDelay.PutKeepsSafe | src/lingtai/kernel/notifications.py:530-532 | replacing the record keeps a safe journal safe if and only if a started delay starts right and the record it displaces is cancelled, rung, or before its deadline |
| NotificationDelay.StartLosesAlarmIff | src/lingtai/kernel/notifications.py:684-737 | whatever wrote the journal: a delay action that decides to start loses an alarm if and only if it finds an `expiring` record not yet rung |
| NotificationDelay.CrashedExpiryIsLost | src/lingtai/kernel/notifications.py:490-532 | from any overdue delay, a process that dies after recording the expiry leaves a record the next start overwrites unrung |
| NotificationDelay.RingKeepsSafe | src/lingtai/kernel/notifications.py:542-549 | ringing keeps it safe when the alarm is true and equals every earlier alarm of its request |
| NotificationDelay.CompletionIsTold | src/lingtai/kernel/notifications.py:509-532 | the completion written at expiry names the target, window and initial state the delay was started with and a run time of at least the window |
| NotificationDelay.SuppressedOnlyInsideWindow | src/lingtai/kernel/notifications.py:309-340 | in every reachable state a suppressed channel has a live record started under the cap then in force, the clock is inside its window, and it is not the alarm channel |
| NotificationDelay.ExpiringRecordIsNotProtected | src/lingtai/kernel/notifications.py:688-695 | the shortest such journal |
| NotificationDelay.OnlyAValidRecordHides | src/lingtai/kernel/notifications.py:309-340 | for an arbitrary record on disk: a channel is suppressed exactly when every check passes and the record names it |
| NotificationDelay.ConsumerSeesTheRest | src/lingtai/kernel/notifications.py:1085-1106 | what a consumer of the coherent read then sees: the allowed directory less the one ordinary channel a valid live record names, and daemon attention masked for a delay only if the record names `daemon`; a malformed record hides and masks nothing |
| NotificationDelay.DelayStore.ExpireTransaction | src/lingtai/kernel/notifications.py:477-550 | an owed alarm is rung, describing the target only if the look before the lock saw this very record, and the record becomes `published` and changes in nothing else, or the process dies with the debt on disk; a transaction that does not go ahead writes nothing |
| NotificationDelay.WhatCountsAsChanged | src/lingtai/kernel/notifications.py:389-396 | two looks at a target differ unless both found nothing or both found files of one content hash |
| NotificationDelay.DelayStore.RecordCompletion | src/lingtai/kernel/notifications.py:490-532 | the record turns `expiring` under the same request id before anything rings |
| NotificationDelay.DelayStore.RingAndPublish | src/lingtai/kernel/notifications.py:533-550 | a survivor has rung the alarm and left `expiring`; a crash in between loses nothing |
| NotificationDelay.DelayStore.DelayTransaction | src/lingtai/kernel/notifications.py:683-754 | start, replace, cancel, mismatch or overdue, decided from the record under the lock; a start or a cancel appends exactly its one record to the journal, anything else nothing; a debt is never overwritten |
| NotificationDelay.DelayStore.StartDelay | src/lingtai/kernel/notifications.py:723-737 | the new record has a request id never used before, and starts now |
| NotificationDelay.DelayStore.Reconcile | src/lingtai/kernel/notifications.py:431-552 | whatever other threads do between the unlocked look and the lock, an alarm owed on entry has rung when a live call returns, and after a recovery of any request no record is left `expiring` or active past the time of entry; undisturbed, the call itself rings what was owed |
| NotificationDelay.DelayStore.Settle | src/lingtai/kernel/notifications.py:683-762 | the transaction and its answer: started, cancelled, nothing to cancel and other channel are true of the one write it made or of the record it left alone, and an overdue record still owes its alarm |
| NotificationDelay.DelayStore.Attempt | src/lingtai/kernel/notifications.py:681-772 | one pass of the bounded loop: its answer describes the write of its transaction; it puts the request off only over a delay that ran out, and undisturbed it has rung that one and looks again |
| NotificationDelay.DelayStore.DelayChannel | src/lingtai/kernel/notifications.py:638-787 | a request is invalid exactly when the channel is not allowed or is the alarm, or the seconds are no integer from 0 to the cap, and then changes nothing; otherwise every alarm owed on entry has rung before the call returns; delayed and cancelled are the one write of the deciding transaction, nothing to cancel and other channel write nothing; recovery is reported pending only if a delay ran out during the call and another thread interfered, so a request that meets no such delay is answered at once |
| NotificationDelay.DelayStore.TakeTwoPasses | src/lingtai/kernel/notifications.py:681-774 | the bounded loop: two passes are enough unless another thread interferes |
| NotificationDelay.DelayStore.DelayedTarget | src/lingtai/kernel/notifications.py:569-582 | recovery first, then, after any clock steps and transactions of other threads, exactly the target of the one live allowed record; every alarm owed on entry has rung |
| NotificationDelay.DelayStore.Run | src/lingtai/kernel/notifications.py:431-782 | over any number of process lifetimes: no owed alarm is lost, all alarms of one request are identical, every alarm is true, every delay started within its cap |
| DaemonAttention.MaskIsTokenAmongOthers | src/lingtai/kernel/notifications.py:988-1015 | the masked tuple is the other files' raw entries with one token entry at the daemon's place in name order |
| DaemonAttention.WhatTheMaskShows | src/lingtai/kernel/notifications.py:957-1015 | without a threshold and a delay the tuple passes through; otherwise the other entries stay and the one daemon entry is `daemon:delayed=1`, or `daemon:alarm=1` exactly when the payload is latched or its count above the threshold, or else `daemon:alarm=0` |
| DaemonAttention.MaskEquality | src/lingtai/kernel/notifications.py:988-1015 | two masked tuples are equal exactly when the other entries and the tokens are |
| DaemonAttention.ThresholdMaskEquality | src/lingtai/kernel/notifications.py:957-1015 | with a threshold, exactly when the other channels are byte-equal and the alarm bits agree |
| DaemonAttention.DelayedMaskEquality | src/lingtai/kernel/notifications.py:957-1015 | under a live daemon delay, exactly when the other channels are byte-equal |
| DaemonAttention.BatchCountsAppends | src/lingtai/kernel/notifications.py:915-954 | after any run, with or without a threshold, the batch state counts the appends since the last clear, and has alarmed exactly above a threshold |
| DaemonAttention.AppendToMalformed | src/lingtai/kernel/notifications.py:915-954 | an append to unusable batch state counts from one and alarms only if it was latched or the threshold is zero |
| DaemonAttention.OneWakeEdgePerBatch | src/lingtai/kernel/notifications.py:915-1015 | over any run an operation moves the wake fingerprint exactly when it is append number threshold + 1 of its batch or the clear of an alarmed batch |
| DaemonAttention.FirstSightWakesOnlyIfAlarmed | src/lingtai/kernel/notifications.py:1139-1168 | a never-synced agent is woken by its first sight of the daemon file exactly when the batch has alarmed |
| DaemonAttention.FirstSightOtherwise | src/lingtai/kernel/notifications.py:1139-1168 | ... always without a threshold, and never under a delay |
| Fingerprints.SortSorts | src/lingtai/adapters/posix/notification_store.py:462-491 | entries of distinct files come out sorted by name, none lost, none added |
| Fingerprints.SortedIsUnique | src/lingtai/adapters/posix/notification_store.py:462-491 | a sorted fingerprint is determined by its entries |
| Dismissal.TokenMatchesIffContentDelivered | src/lingtai/kernel/notifications.py:1802-1811 | the delivered entry matches the current file exactly when the content, absence included, is the delivered content |
| Dismissal.KeptIsTheNonMatchingSubsequence | src/lingtai/kernel/notifications.py:2121-2171 | an event dismissal keeps the non-matching events at increasing positions: none lost, duplicated or reordered |
| Dismissal.EventsOfWithEvents | src/lingtai/kernel/notifications.py:1759-1769 | the rewritten payload carries exactly the kept events |
| Dismissal.RewriteKeepsTheRest | src/lingtai/kernel/notifications.py:1759-1769 | a rewrite touches the event list, the header and the time stamp, nothing else |
| Dismissal.KeptIsNoLonger | src/lingtai/kernel/notifications.py:2121-2171 | nothing is dropped exactly when nothing matches |
| Dismissal.NotificationAgent.RemoveEvents | src/lingtai/kernel/notifications.py:2121-2171 | an event dismissal leaves the file alone exactly as it is if nothing matches, and otherwise drops exactly the matching events of the payload it held |
| Dismissal.NotificationAgent.WhatIsLeft | src/lingtai/kernel/notifications.py:1759-1769 | what such a drop leaves: no file when nothing is kept, else the encoding of the payload whose events are the kept ones |
| Dismissal.NotificationAgent.Dismiss | src/lingtai/kernel/notifications.py:1877-2297 | each refusal is given exactly when its own condition is the first to hold; otherwise, without force, staleness is exactly a change since delivery, and shows both versions; a whole-channel dismissal removes the file; an event dismissal drops exactly the objects whose `event_id` or `ref_id` is the given one and keeps every other event, in order, in a payload with the new count and time; other channels are never touched; bytes that are no text make the call raise |
| Dismissal.ChangedWasDelivered | src/lingtai/kernel/notifications.py:1998-2053 | a file equal to the delivered one was visible at an instant the observation describes, with the payload that was shown |
| Dismissal.DeliverThenDismiss | src/lingtai/kernel/notifications.py:1998-2171 | after a stable read was delivered, whatever was published in between, a non-forced dismissal changes only a file equal to what was delivered: it clears it, or drops exactly the matching events of the payload that was shown |
| HookRegistry.StepKeepsInv | src/lingtai/kernel/notifications.py:1198-1264 | each atomic effect of syncs, updates and outside writes keeps the mirror invariant, and the mirrored version never goes back |
| HookRegistry.MirrorIsNeverStale | src/lingtai/kernel/notifications.py:1198-1236 | a seeded mirror holds exactly the non-empty channel names of the manifests of one registry version, no older than the one its stamp names, and after a sync returned, no older than the version its stat call read, where recurring stats are harmless |
| HookRegistry.SomeThreadCanMove | src/lingtai/kernel/notifications.py:1198-1264 | after any run a thread inside one of the functions, or the holder of the lock it waits for, can move; no lock outlives its holder |
| HookRegistry.UpdateIsVisibleOnReturn | src/lingtai/kernel/notifications.py:1250-1264 | a returned update sees its own write, or a later version, under every interleaving and however stats recur: dropping the stamp makes this unconditional |
| HookRegistry.RecurringStatLeavesMirrorStale | src/lingtai/kernel/notifications.py:1214-1236 | whenever a stat recurs in a registry history and the channels differ, some schedule over that history ends with a returned sync and a mirror older than the disk it read |
| HookRegistry.NeverStaleIffHarmless | src/lingtai/kernel/notifications.py:1198-1236 | a registry history admits no stale return, under any interleaving, if and only if at every recurring stat the channels are back to what they were ever since |
| HookRegistry.NeverStaleWithDistinctStats | src/lingtai/kernel/notifications.py:1198-1236 | in particular no sync returns stale where every version has a stat of its own |
| SearchWalk.StepKeepsInv | crates/lingtai-search-sidecar/src/main.rs:364-398 | every atomic step of every worker keeps the whole walk invariant: entries, tickets, groups, stop flag, sink lock, visit budget, entries visited |
| SearchWalk.PushKeepsGroups | crates/lingtai-search-sidecar/src/main.rs:533-548 | under the sink lock the matches of one file stay in one group, in line order |
| SearchWalk.CountKeepsTickets | crates/lingtai-search-sidecar/src/main.rs:534-539 | every item draws one ticket, and exactly the first max_results tickets win |
| SearchWalk.StepSkipsNothing | crates/lingtai-search-sidecar/src/main.rs:449-549 | while no budget trips every item is counted, held or still queued |
| SearchWalk.VisitedWithinWorkers | crates/lingtai-search-sidecar/src/main.rs:453-457 | the visit count exceeds its budget by at most one per worker |
| SearchWalk.RunKeepsReason | crates/lingtai-search-sidecar/src/main.rs:377-383 | over any schedule a settled truncation reason stays |
| SearchWalk.FirstReasonWins | crates/lingtai-search-sidecar/src/main.rs:377-383 | from the start of a walk, the first reason is never overwritten |
| SearchWalk.FinishedWalkIsExact | crates/lingtai-search-sidecar/src/main.rs:423-698 | whatever the schedule, if no visit or walltime budget is reported the walk collected exactly min(cap, items), and reports the cap exactly when items exceed it |
| SearchWalk.ReasonIsTrue | crates/lingtai-search-sidecar/src/main.rs:450-461 | what a finished walk reports is so: `visited` only above the visit budget, `walltime` only after an over-time reading of the clock, and no reason only if every entry was visited within the budget |
| SearchWalk.WithinBudgetsIsComplete | crates/lingtai-search-sidecar/src/main.rs:449-549 | within all three budgets every schedule ends without a reason and with every item |
| SearchWalk.OverTimeIsReported | crates/lingtai-search-sidecar/src/main.rs:458-461 | a walk whose clock was once read over time ends with a reason |
| SearchWalk.NoDeadlock | crates/lingtai-search-sidecar/src/main.rs:364-398 | under every schedule some worker can move until the walk has finished |
| SearchResults.SortGroupsSorts | crates/lingtai-search-sidecar/src/main.rs:562-563 | files come out in path order, none lost, none added |
| SearchResults.FlattenSorted | crates/lingtai-search-sidecar/src/main.rs:565-579 | flattening the sorted files is strictly sorted by path and line |
| SearchResults.EmitMatches | crates/lingtai-search-sidecar/src/main.rs:565-579 | the nested emission loop returns the sorted, flattened matches cut at the cap |
| SearchResults.EmitFile | crates/lingtai-search-sidecar/src/main.rs:567-578 | the inner loop and its outer break: cut exactly when the cap is reached |
| SearchResults.Grep | crates/lingtai-search-sidecar/src/main.rs:423-585 | for every schedule: strictly sorted, true matches only, never above the cap; without another budget exactly min(cap, matching lines); untruncated, exactly all of them; a reported budget was exceeded, and within all three budgets the answer is complete |
| SearchResults.Glob | crates/lingtai-search-sidecar/src/main.rs:230-239 | after any schedule: the sorted strings of matching paths only, none taken twice; without another budget exactly min(cap, matching files), and the cap reported exactly when exceeded; untruncated, exactly all of them; a reported budget was exceeded, and within all three budgets the answer is complete |
| SearchResults.GlobCollects | crates/lingtai-search-sidecar/src/main.rs:624-698 | what the workers collected: distinct matching paths, as many as the cap and the matches allow |
| SearchResults.SortStringsSorts | crates/lingtai-search-sidecar/src/main.rs:233-235 | the final sort puts the strings in order, none lost, none added |
| SearchResults.GlobIsScheduleFree | crates/lingtai-search-sidecar/src/main.rs:230-239 | two untruncated walks, under any schedules and numbers of workers, give the same sequence of strings, however lossy their rendering |
| SearchResults.CompleteAnswerIsUnique | crates/lingtai-search-sidecar/src/main.rs:560-579 | complete, strictly sorted answers are equal, so an untruncated grep does not depend on the schedule |
| SearchResults.GlobItemsAreMatches | crates/lingtai-search-sidecar/src/main.rs:624-698 | the items counted by a glob walk are its matching files |
| DispatchLedger.ForwardIsSplit | src/lingtai/kernel/daemon_dispatch.py:210-216 | the forward reader yields the newline-separated pieces, less the empty one at the end |
| DispatchLedger.SuffixShowsTail | src/lingtai/kernel/daemon_dispatch.py:186-207 | a suffix with more than n newlines already shows the last n lines |
| DispatchLedger.TailLines | src/lingtai/kernel/daemon_dispatch.py:186-207 | for every content and every limit n, exactly the last n lines of the forward reader |
| DispatchLedger.FinalRecordOfSuffix | src/lingtai/kernel/daemon_dispatch.py:109-131 | what a suffix of the file tells about the final record, exactly |
| DispatchLedger.WhatTheFinalRecordIs | src/lingtai/kernel/daemon_dispatch.py:109-131 | the final record is the last stretch without a newline, ahead of the trailing newlines; it fits exactly when there are none of these, or it and they take at most 8192 bytes |
| DispatchLedger.LastLine | src/lingtai/kernel/daemon_dispatch.py:109-131 | the final record if and only if it and its newlines fit one chunk (or the file ends mid-line); a suffix of it in any case |
| DispatchLedger.ParseOfEncoded | src/lingtai/kernel/daemon_dispatch.py:134-157 | an appended record parses back to itself |
| DispatchLedger.WhatARecordIs | src/lingtai/kernel/daemon_dispatch.py:134-157 | a line is a record exactly when it decodes to an object with the schema, a positive integer sequence and two non-empty strings in their fields |
| DispatchLedger.FinalRecordOfText | src/lingtai/kernel/daemon_dispatch.py:109-131 | the final record of a well-formed ledger is its last record |
| DispatchLedger.Ledger.AppendDispatch | src/lingtai/kernel/daemon_dispatch.py:160-183 | an append only extends the bytes, a refusal leaves them; the final record alone, when in reach, decides the sequence or blocks the append; on a well-formed ledger the next sequence comes from the last record alone and the ledger stays well formed |
| DispatchLedger.Ledger.AppendAll | src/lingtai/kernel/daemon_dispatch.py:160-183 | from an empty ledger, any interleaving of locked appends of records that fit one chunk leaves sequences 1..k in acceptance order |
| DispatchLedger.Ledger.ReadDispatches | src/lingtai/kernel/daemon_dispatch.py:231-278 | records, invalid lines, gaps and duplicates of the full file or of its last n lines |
| DispatchLedger.ParseLines | src/lingtai/kernel/daemon_dispatch.py:250-256 | for every file: the reported offsets are exactly those of the lines that do not parse, ascending, and the records are the parses of the other lines, in order |
| DispatchLedger.Diagnose | src/lingtai/kernel/daemon_dispatch.py:263-277 | one pass finds the gaps and the repeated run ids |
| LedgerCodec.ShortRunsMeetTheHypotheses | src/lingtai/kernel/daemon_dispatch.py:160-183 | one codec meets every hypothesis of `AppendAll` for every list of up to a hundred requests with short names |
| DispatchLedger.NoGapsIffConsecutive | src/lingtai/kernel/daemon_dispatch.py:263-277 | no gap is reported exactly when sequences follow on |
| DispatchLedger.GapsAreExact | src/lingtai/kernel/daemon_dispatch.py:263-271 | the sequences reported are, in order, exactly those that do not follow the record before |
| DispatchLedger.NoDuplicatesIffDistinct | src/lingtai/kernel/daemon_dispatch.py:263-277 | no duplicate is reported exactly when run ids are distinct |
| DispatchLedger.DuplicatesAreExact | src/lingtai/kernel/daemon_dispatch.py:263-271 | the run ids reported are, in order, exactly those that repeat an earlier record's |
| DispatchLedger.LedgerReadsBackClean | src/lingtai/kernel/daemon_dispatch.py:231-278 | whatever was appended reads back, in full or as a tail, with no invalid line and no gap |
| CodexRefresh.NoRetiredTokenIsPosted | src/lingtai/auth/codex.py:183-251 | for any processes in any interleaving, no retired refresh token is posted and the server accepts every post |
| CodexRefresh.StepKeepsInv | src/lingtai/auth/codex.py:183-251 | lock ownership, and a live credential on disk or in the lock holder's hand, survive every step |
| CodexRefresh.StepKeepsChain | src/lingtai/auth/codex.py:183-251 | posts form a chain: each replaces what the one before issued, because exactly that was rejected |
| CodexRefresh.OnePostPerRejectedToken | src/lingtai/auth/codex.py:100-114 | all callers rejected with the same access token cause at most one post |
| CodexRefresh.RejectedTokenIsNeverReturned | src/lingtai/auth/codex.py:86-114 | a call that returns after a rejection never returns the rejected token, stale read caches included |
| CodexRefresh.ReturnedTokenHasTimeLeft | src/lingtai/auth/codex.py:86-114 | under every interleaving, a call that has returned handed out the access token of a credential it read, the login or an answer of the server, which expired more than 300 seconds after the call began |
| CodexRefresh.FirstReadDecides | src/lingtai/auth/codex.py:91-98 | `get_access_token` returns at once exactly when the credential it read has more than 300 seconds left, and goes for the lock otherwise |
| CodexRefresh.NoneFailsOrPostsNeedlessly | src/lingtai/auth/codex.py:203-238 | while requests reach the server no call fails, and a process posts only for the token it was rejected with or a credential running out |
| CodexRefresh.SomeoneCanMove | src/lingtai/auth/codex.py:193-251 | a call under way, or the holder of the lock it waits for, can move |
| SessionRebuild.TailLinesAreLastLines | src/lingtai/kernel/agent_session.py:439-459 | where the bounded view is clean it is the last lines of the file, and all of them when it reached the start, wherever the bound cuts a character or a line |
| SessionRebuild.HistoryBeforeBoundaryIsIgnored | src/lingtai/kernel/agent_session.py:333-355 | events before the last boundary do not change the totals |
| SessionRebuild.ScanForward | src/lingtai/kernel/agent_session.py:379-431 | resetting at every boundary computes the totals after the last one, its timestamp and its source |
| SessionRebuild.ScanBackward | src/lingtai/kernel/agent_session.py:325-355 | summing backwards to the first boundary met computes the same totals, finds a boundary exactly when there is one, and has looked at the events from it on |
| SessionRebuild.ReverseScanOf | src/lingtai/kernel/agent_session.py:310-376 | falls through exactly when the bounded view has no boundary and misses the start of the file |
| SessionRebuild.FullScanOf | src/lingtai/kernel/agent_session.py:379-431 | the meaning of the whole file |
| SessionRebuild.BoundedViewAgrees | src/lingtai/kernel/agent_session.py:310-376 | whenever a bounded view of clean text can answer, it means what the whole file means, whatever stands before it |
| SessionRebuild.Rebuild | src/lingtai/kernel/agent_session.py:199-213 | which tier answers, and with what: the number of `llm_response` events after the last `psyche_molt` of the lines it read, each of the four totals the sum of its own field over them, start and source those of that boundary; where the bounded view is clean the JSONL rebuild does not depend on the bound, in every field but the tier label and the scanned count |
| SessionRebuild.TiersAgreeIffClean | src/lingtai/kernel/agent_session.py:439-459 | on a file read whole, the tiers agree for every decoder exactly when its only line ends are text-mode ones |
| SessionRebuild.CutTiersAgreeIff | src/lingtai/kernel/agent_session.py:439-459 | on a file the bound cuts, they agree for every decoder exactly when since any line the view shows, view and file hold the same lines equally often |
| SessionRebuild.TiersAgreeIff | src/lingtai/kernel/agent_session.py:310-431 | both cases in one: every file, every bound |
| Jsonc.StripComments | src/lingtai/kernel/config_resolve.py:14-56 | the index loop computes the comment-free text the lemmas below describe |
| Jsonc.WhereStringsEnd | src/lingtai/kernel/config_resolve.py:35-48 | a string goes on up to the first quote with an even number of backslashes right before it, and ends there |
| Jsonc.LinesStayInPlace | src/lingtai/kernel/config_resolve.py:14-56 | every line is kept whole or cut at a `//`, so newlines, line numbers and columns survive |
| Jsonc.StringsSurviveComments | src/lingtai/kernel/config_resolve.py:14-56 | string literals survive byte for byte, in order |
| Jsonc.UnchangedIffNoComment | src/lingtai/kernel/config_resolve.py:14-56 | a text is unchanged exactly when no `//` stands outside its strings |
| Jsonc.CommentsAreGone | src/lingtai/kernel/config_resolve.py:14-56 | on every text the pass is idempotent and leaves no `//` outside strings |
| Jsonc.StripTrailingCommas | src/lingtai/kernel/config_resolve.py:59-96 | the per-gap substitution outside strings, plus a second copy of the last gap and string if that string never closes |
| Jsonc.GapThenString | src/lingtai/kernel/config_resolve.py:59-96 | substituting in each gap on its own is substituting outside strings of the whole text |
| Jsonc.OnlyTrailingCommasGo | src/lingtai/kernel/config_resolve.py:59-96 | exactly the commas before a closer, with the whitespace between, are dropped, and only outside strings |
| Jsonc.StringsSurviveTrimming | src/lingtai/kernel/config_resolve.py:59-96 | string literals survive, and no comment appears |
| Jsonc.IdempotentIffNoDoubleComma | src/lingtai/kernel/config_resolve.py:11-11 | the comma pass is idempotent exactly on texts without a doubled comma before a closer |
| Jsonc.DoubledIffUnclosed | src/lingtai/kernel/config_resolve.py:73-96 | the result is the trimmed text exactly when every string closes |
| Jsonc.Shortfalls | src/lingtai/kernel/config_resolve.py:59-96 | concrete texts for both failures |
| Jsonc.Normalise | src/lingtai/kernel/config_resolve.py:99-109 | both passes composed: strings kept, comments and trailing commas gone, and a text unchanged exactly when it had neither |
| AccountDraw.EligibleIsExact | src/lingtai/auth/codex_account_source.py:309-312 | the eligible positions are exactly those not excluded, once each, in order, duplicates of an account included |
| AccountDraw.ComputeRawWeights | src/lingtai/auth/codex_account_source.py:341-366 | the weights are the configured ones or the scaled ones, and never negative |
| AccountDraw.AllScaledOrNone | src/lingtai/auth/codex_account_source.py:341-384 | every weight is the configured one times its quota if all quotas are numbers from 0 to 1, and every weight is the configured one otherwise |
| AccountDraw.Sample | src/lingtai/auth/codex_account_source.py:323-334 | every draw lands in the slice of the account returned; the fall-back to the last account is never needed |
| AccountDraw.LandsOnce | src/lingtai/auth/codex_account_source.py:323-334 | no draw lands in two slices, none in that of a zero weight |
| AccountDraw.Select | src/lingtai/auth/codex_account_source.py:288-339 | the candidate is the account at the reported true position in whose slice the draw lands, excluded neither by digest nor by path, an absolute path redacted; refused exactly when everybody is excluded or no weight is left |
| AccountDraw.SharesAreExact | src/lingtai/auth/codex_account_source.py:392-397 | of the 2^53 draws the number selecting an account differs from its exact share by less than one, and is zero for a zero weight |
| AccountDraw.NoDrawIsLost | src/lingtai/auth/codex_account_source.py:323-334 | the shares add up to all draws |
| JsonFinite.OpenKeepsInv | src/lingtai/init_schema.py:206-218 | opening a container keeps everything reachable covered and everything pending reachable |
| JsonFinite.WhatAContainerHolds | src/lingtai/init_schema.py:206-218 | the children of a dict are its keys and its values, those of a list or tuple its items |
| JsonFinite.CoverageFollowsPaths | src/lingtai/init_schema.py:198-219 | when nothing is pending, coverage extends along every path |
| JsonFinite.IsJsonFinite | src/lingtai/init_schema.py:198-219 | terminates on every finite graph, cycles and sharing included, and is false exactly when a non-finite float is reachable |
| PresetMaterialize.LoadChosen | src/lingtai/kernel/presets.py:491-509 | the default steps in only when the active preset is missing, and the load counts as missing only when no usable default could be loaded |
| PresetMaterialize.MergeAll | src/lingtai/kernel/presets.py:537-587 | the three merge loops compute the merged capabilities the lemmas below describe |
| PresetMaterialize.WhoOwnsACapability | src/lingtai/kernel/presets.py:546-565 | init.json wins key by key where the preset also enables a capability; omitted core capabilities keep their init arguments; omitted others disappear |
| PresetMaterialize.SkillsPathsAppend | src/lingtai/kernel/presets.py:539-585 | skills paths are the preset's list, then init.json's extras in their order without repeats; without extras the preset's entry stays as it is |
| PresetMaterialize.RaisesIff | src/lingtai/kernel/presets.py:566-585 | the merge raises exactly when init.json lists a path and the preset's paths are neither a string nor a list of hashable items |
| PresetMaterialize.RestOfManifestStays | src/lingtai/kernel/presets.py:484-517 | only the llm, the capabilities and the active reference can change, the reference only to the default when its preset is missing; the llm is the preset's without its context limit; a failed load changes nothing |
| PresetMaterialize.CapabilitiesTwice | src/lingtai/kernel/presets.py:537-587 | merging the merged capabilities again changes nothing, with the exact exception |
| PresetMaterialize.TwiceIsOnce | src/lingtai/kernel/presets.py:418-587 | with a deterministic loader a second run changes neither outcome nor manifest, whatever the first came to, the default fallback included, with the exact exception |
| PresetMaterialize.RepeatCanRaise | src/lingtai/kernel/presets.py:568-585 | such a preset: the first run succeeds, the second raises |
| PresetMaterialize.Init.Materialise | src/lingtai/kernel/presets.py:484-587 | from what the loader answers and what init.json held: which preset is used and written back, each outcome and when it is given, the llm without its context limit, everything else unchanged; on success, for every capability but skills, who owns it and its arguments, always-on ones carried forward, and for skills the appended paths; a preset without capabilities leaves those of init.json |

## Left out

- CoherentRead.CoherentAttentionRead: names a single instant only if no file read of the deciding attempt raised; the store swallows such an error and the file looks absent.
- CoherentRead: the store's aggregate of per-daemon files (tombstones, pending control records, the payload shown for an unreadable control record) is one file here, read before the listing as in the code; the effect of the hash on names is an injectivity hypothesis.
- NotificationDelay: several live processes at once; timers; failed writes that do not kill the process; rounding of the reported run time; producer-reported counts inside the target statistics.
- NotificationDelay.DelayStore.OtherThreads: other threads reach a delay transaction only past their own recovery, as in the code, so none meets an `expiring` record there.
- Dismissal.NotificationAgent.Dismiss: on the `daemon` channel the store removes events through its control record and writes neither header nor time stamp; the equation on the written payload is about `system`.
- Dismissal.NotificationAgent.WhatIsLeft: that the payload written reads back is a hypothesis on that one value.
- Dismissal: the nudge channel's own dismissal record, acknowledgement of large-result references, stale-advice texts, audit events.
- HookRegistry: a stat call that raises, which the code reads as an absent file; logging of failures. A failing load is modelled.
- HookRegistry and CodexRefresh are step machines rather than classes, because their properties are about interleavings; the cache object that the token manager shares with its caller is a value there.
- SearchWalk: regex and glob engines, directory traversal, size and binary skips and their counters, the clock behind the walltime budget; an entry is what it yields.
- SearchResults.Glob: how a path is rendered as a string is an arbitrary function; a truncated answer depends on the schedule, as in the code.
- DispatchLedger: torn writes of a single append, the Windows lock byte, recovery markers; that the JSON text of a record reads back is a hypothesis, which `LedgerCodec` shows can be met.
- CodexRefresh.OnePostPerRejectedToken: a crash between the post and the replace, a response without a new refresh token, and answers that expire within the run; a post that never reaches the server is not counted.
- CodexRefresh.ReturnedTokenHasTimeLeft: answers of the server that expire before the end of the run; the remaining time is counted from the beginning of the call.
- SessionRebuild: the SQLite tier, which rests on timestamp order the code does not enforce; invalid UTF-8 inside the file (a character cut by the bound is modelled).
- Jsonc.Normalise: the JSON parser itself; the composed statement is for texts whose strings close after comments are gone.
- AccountDraw.SharesAreExact: floating-point rounding of the cumulative sum; the pool file parser.
- JsonFinite: subclasses of dict, list and tuple are leaves, as in the code; everything else about schema validation.
- PresetMaterialize: preset files and their validation; a preset without llm settings, which the loader refuses, so the manifest's own llm is never kept; a skills paths value that is a non-empty object.
- Everything else in the repository: agents, tools, command line, network services, migrations, message texts. They compose these parts or are thin.
