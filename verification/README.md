# xcsc, modelled and proved in Dafny

xcsc is the Rust base library of desktop, mobile and offline clients. This project models the parts of it that
carry state across calls, threads, processes and crashes, and proves what they promise. `dafny verify dfyconfig.toml`
checks everything.

**Delivery pipeline.**

- `SpoolNames`, `SpoolCodec`: the two persistent formats of the spool, the file name and the checksummed container.
- `Devices`, `SpoolStore`, `SpoolDirectory`, `SpoolListing`, `SpoolOperations`: the spool over one directory, one system
  call at a time. Every call may fail, a ghost counter counts the failures, and an I/O error is answered only after one.
  Every state the directory passes through is recorded in a ghost timeline, so a statement about all moments of the
  timeline is a statement about every point where the process may stop. Publication is the Linux `renameat` with
  NOREPLACE.
- `SpoolRuns`, `SpoolHistory`: runs of any length with reopenings, and the accounting of every published record.
- `Delivery`, `DeliveryHistory`: the batch loop over the spool, with producers enqueueing between any two calls and an
  adapter that answers or whose send is dropped, and runs of the service with stops and restarts.
- `Backoff`, `Worker`, `WorkerRuns`, `WorkerStarts`: retry delays, the worker loop as an object, every interleaving of
  it with producers, time and the futures it polls, and when each start, timer and exit of a run comes about.

**Independent cores.**

- `StateLocks`, `LockGrants`: instance and maintenance locks over a small kernel of inodes and open file descriptions;
  what they exclude, and what they grant.
- `Rotation`, `RotationLines`: the rotating sinks of both platforms, and the physical lines of what they write.
- `LogTail`, `LogQuery`, `LogErrors`, `LogFollow`, `LogSlots`: the bounded suffix reader, the log query and its errors,
  following a log from query to query and into slots longer than what is read of them.
- `Unicode`, `LineEditors`, `RawInput`: UTF-8 and UTF-16, the two terminal line editors, and what they make of malformed
  input.
- `ArgumentQuoting`: the Windows quoter and the CommandLineToArgvW parser.
- `Handles`, `Inventory`, `XmlBudget`, `SchemaFraming`: the handle table, the directory walks, the streaming XML
  budgets and the schema fingerprint.
- `Bytes`, `Numbers`, `Outcomes`: octets, big-endian words, lexicographic order; shared arithmetic; `Option` and
  `Result`.

Methods follow the source's loops and branches and are proved against functions; the lemmas then prove what those
functions mean for files, events, inputs and errors. SHA-256, record decoders and random draws are parameters, so every
result holds for all of them.

What proved false or unexpected of the code, with the inputs and the exact conditions:

- Following a log by a cursor can pass over unseen records without a gap, for two reasons. The cursor counts equal
  records from the oldest one read, and rotation drops the front of the log: with the first of three equal records
  dropped (`LogFollow.FollowCanSkip`) or the followed record itself (`LogFollow.FollowCanSkipDropped`) the wrong record is
  followed. The answer is right if and only if no dropped record has the followed content or the cursor names nothing in
  the window (`LogFollow.FollowAfterDrop`). And a slot longer than 1 MiB is read from somewhere in its middle on: with 65
  records of 16 KiB in the new file, the first is never answered (`LogSlots.FollowCanSkipUnread`). The answer is right if
  and only if no slot behind the followed record is longer than 1 MiB or the record has left the window
  (`LogSlots.FollowIntoSlots`). `LogSlots.FollowAcrossSlots` gives the condition for both reasons at once.
- A write that fails in the middle of its line leaves a fragment. The sink that wrote it never writes again, but a sink
  opened later accepts the file and glues its first line to the fragment (`RotationLines.LineLostAfterReopening`,
  `RotationLines.WriteReopenWrite`). For any sink, through any number of rotations and as long as the file that was
  active on opening is kept, reading all slots file by file gives the lines found and then exactly the lines written, if
  and only if that file was empty or ended in a newline, or no line went into it; once it is dropped, only lines that
  were written are read (`RotationLines.UnixLines`, `RotationLines.WindowsLines`).
- In the query, the check that more than `tail` entries follow a cursor (src/cli/mod.rs:812-814) can never fire, because
  only `tail + 1` entries are kept and at least one is dropped; `LogQuery.Select` keeps the branch and proves the answer.
- An enqueue that reports an error may have published its record; the proved statement is "absent or whole", and whole
  when the error is `PublishedDurabilityUnknown`.

## Model
| member | source | states |
|---|---|---|
| SpoolNames.ParseOfRecordName | src/runtime/spool.rs:327-376 | parsing undoes naming for every valid name |
| SpoolNames.ParseAcceptsExactlyImage | src/runtime/spool.rs:343-376 | a text parses if and only if it is some record's name |
| SpoolNames.RecordNameInjective | src/runtime/spool.rs:327-342 | different names never share a file |
| SpoolNames.StemOrder | src/runtime/spool.rs:327-342 | text order of the zero-padded stems is numeric order on (priority, timestamp, id) |
| SpoolNames.NameOrder | src/runtime/spool.rs:294-342 | text order of whole file names is that same order, whatever the extensions |
| SpoolNames.RecordNameText | src/runtime/spool.rs:294-342 | the text itself: three digits, twenty digits, the identifier, and `.record`, `.bad` or `.identity` exactly by what became of the record |
| SpoolCodec.DecodeOfEncode | src/runtime/spool.rs:378-457 | a container decodes back to its record under its own name |
| SpoolCodec.EncodeOfDecode | src/runtime/spool.rs:399-457 | whatever decodes is byte for byte the encoding of the result |
| SpoolCodec.DecodeExact | src/runtime/spool.rs:399-457 | decoding gives a record if and only if the bytes are its container, it matches the name and it fits |
| SpoolCodec.EncodedSize | src/runtime/spool.rs:17-17 | a container exceeds its payload by at most CONTAINER_OVERHEAD |
| SpoolCodec.IdTextOfBytes | src/runtime/spool.rs:378-398 | the 16 identifier bytes give the hexadecimal text back |
| SpoolCodec.I64RoundTrips | src/runtime/spool.rs:378-457 | timestamps survive the signed big-endian form in both directions |
| SpoolCodec.AcceptedIsSealed | src/runtime/spool.rs:399-404 | accepted bytes end in the digest of everything in front of it, by `Decode` alone |
| SpoolCodec.ChangeIsNoticed | src/runtime/spool.rs:399-404 | other bytes in front of the same checksum are accepted only if they collide under the digest |
| SpoolCodec.ContainerLayout | src/runtime/spool.rs:378-398 | byte by byte which position of a container holds which field, and that the seal covers them all |
| Bytes.FrontWeighsMore | src/runtime/spool.rs:386-393 | words are read most significant octet first |
| SpoolStore.TemporaryIsNoRecord | src/fs_safety/mod.rs:458-469 | no name is both a temporary and a record or the lock |
| SpoolStore.LockIsNoRecord | src/runtime/spool.rs:25-25 | the lock file is neither a record nor a temporary |
| SpoolStore.CurrentAfterAdmission | src/runtime/spool.rs:167-185 | a record admitted within the budgets leaves the spool within them |
| SpoolStore.CurrentAfterRename | src/runtime/spool.rs:216-230 | isolating a record keeps entry count and bytes, so the spool stays within its budgets |
| SpoolStore.RecoverableWithTemporary | src/fs_safety/unix.rs:486-541 | an unfinished temporary on top of a current spool is recoverable |
| SpoolStore.CurrentExactly | src/runtime/spool.rs:273-297 | a directory is admitted exactly when entry count and bytes are within the limits, the lock is empty and every other name is a record |
| SpoolDirectory.Directory.Publish | src/fs_safety/unix.rs:625-676 | NOREPLACE: Ok or PublishedDurabilityUnknown means the target was free and exactly the source moved, any other error that nothing changed; DestinationExists only if the target is there, another error only after a fault of the device |
| SpoolDirectory.Directory.RemoveFile | src/fs_safety/unix.rs:422-426 | exactly that file goes, or nothing changed; an error only after a fault, which may follow the removal |
| SpoolDirectory.Directory.AtomicCreate | src/fs_safety/unix.rs:486-541 | at every moment the directory is the old one, the old one with a part of one temporary, or the old one with the whole new file; the latter for sure on Ok or PublishedDurabilityUnknown; an error only after a fault or with the name taken, and a temporary stays only if its removal failed as well |
| SpoolDirectory.Directory.CleanUp | src/fs_safety/unix.rs:524-541 | removing the temporary after an error leaves the old directory or one of those states |
| SpoolDirectory.Directory.List | src/fs_safety/unix.rs:329-358 | every file once with its size, exactly when both budgets hold, faults aside |
| SpoolDirectory.PublishedFromTemporary | src/fs_safety/unix.rs:486-541 | renaming the finished temporary adds exactly the new record |
| SpoolListing.SortedListing | src/runtime/spool.rs:290-295 | the sorted inventory lists the same files, strictly increasing by name |
| SpoolListing.CurrentEntries | src/runtime/spool.rs:273-296 | the sorted records of a current spool, or exactly the error its first violated condition calls for |
| SpoolListing.ListsMeasure | src/runtime/spool.rs:167-178 | entry count and byte sum of a listing are those of the directory |
| SpoolOperations.Spool.Next | src/runtime/spool.rs:187-214 | the first readable pending record; exactly the unreadable pending records before it are isolated, at every moment; None means no pending record was readable; an error only after a fault, for a refused directory, or when an isolated name is taken |
| SpoolOperations.Spool.IsolateUnreadable | src/runtime/spool.rs:204-226 | one unreadable record of the walk is moved aside, or the exact error |
| SpoolOperations.UnsealedIsIsolated | src/runtime/spool.rs:187-214 | a pending file whose last 32 bytes are not the digest of the rest is never the head, and in front of the head it is isolated with its bytes |
| SpoolOperations.ReadableExact | src/runtime/spool.rs:187-214 | `next` accepts exactly the containers of records stored under their own names |
| SpoolOperations.Spool.QuarantineEntry | src/runtime/spool.rs:216-230 | one record moves to its isolated name with its bytes exactly on Ok or PublishedDurabilityUnknown, otherwise nothing changes |
| SpoolOperations.Spool.Find | src/runtime/spool.rs:245-254 | the only pending record with the identifier; otherwise a fault, the refusal of the directory, NotFound if there is none, an error if there are two |
| SpoolOperations.SoleIsFound | src/runtime/spool.rs:245-254 | in a current directory the lookup of a sole pending record is never refused |
| SpoolOperations.ScanForId | src/runtime/spool.rs:245-254 | first match of the scan, and the duplicate check |
| SpoolOperations.Spool.Ack | src/runtime/spool.rs:232-237 | exactly the sole pending record of the identifier is removed, in one step; an error only after a fault or when the lookup is refused, and then nothing changed |
| SpoolOperations.Spool.Quarantine | src/runtime/spool.rs:239-243 | exactly the sole pending record of the identifier is isolated, in one step; an error only after a fault, when the lookup is refused, or with its isolated name taken |
| SpoolOperations.Spool.Enqueue | src/runtime/spool.rs:145-185 | Ok or PublishedDurabilityUnknown adds one whole container; refused exactly at capacity; on any other error the record is absent or whole, and every moment is recoverable; each error by its condition, I/O errors only after a fault |
| SpoolOperations.AdmittedExactly | src/runtime/spool.rs:167-185 | a record is admitted exactly when the spool with it is within its budgets |
| SpoolOperations.OpenSpool | src/runtime/spool.rs:95-126 | recovery deletes exactly the temporaries, at most adding the lock; an error only for bad limits, another process, a fault of the device, or what the inventory or the final check refuses |
| SpoolOperations.Recover | src/runtime/spool.rs:113-125 | under the lock: exactly the temporaries go, at every moment nothing else; an error only after a fault or by the inventory or the final check |
| SpoolOperations.RecoverableOpens | src/runtime/spool.rs:111-124 | a recoverable directory is never refused |
| SpoolOperations.SweepTemporaries | src/runtime/spool.rs:119-123 | the cleanup loop removes the temporaries it listed and nothing else, at every moment |
| SpoolOperations.IsolationConserves | src/runtime/spool.rs:216-230 | isolating any set of records conserves entry count and total bytes |
| SpoolOperations.HeadIsLeast | src/runtime/spool.rs:187-214 | the record `next` returns precedes every other readable one by (priority, timestamp, id) |
| SpoolOperations.RecoverableFits | src/runtime/spool.rs:111-124 | a recoverable directory fits the opening inventory of `max_entries + 2` and is current once cleaned |
| SpoolOperations.AdmittedCreation | src/runtime/spool.rs:145-185 | every state of an admitted creation can be reopened under the same limits |
| SpoolOperations.EnqueuedIsReadable | src/runtime/spool.rs:145-210 | what enqueue stored is readable under the same limits, so `next` never isolates it |
| SpoolRuns.CleanedIsRecoverable | src/runtime/spool.rs:95-126 | recovery may stop anywhere and can be repeated |
| SpoolRuns.AnyRun | src/runtime/spool.rs:95-254 | over any run of openings, enqueues, reads, acknowledgements and isolations, at every moment there is at most one temporary and reopening fits |
| SpoolHistory.StepKeeps | src/runtime/spool.rs:145-254 | each durable step moves its identifier between pending, isolated and removed as the ledger does |
| SpoolHistory.Accounting | src/runtime/spool.rs:145-254 | after any history every published identifier is in exactly one of pending, isolated, removed, and the directory holds exactly the first two |
| SpoolHistory.AccountingAtEveryMoment | src/runtime/spool.rs:95-254 | the same at every moment a stop could happen |
| SpoolHistory.RemovedByStep | src/runtime/spool.rs:232-237 | an identifier counts as removed exactly when an acknowledgement removed it |
| Delivery.RemovedOnlyAfterSend | src/runtime/delivery.rs:120-148 | a record is removed only after a completed send of it returned Ok or was classed Discard |
| Delivery.CallbackOnlyAfterChange | src/runtime/delivery.rs:120-148 | callbacks fire only after the durable change they report |
| Delivery.FollowPrefix | src/runtime/delivery.rs:120-148 | a batch cut off anywhere still obeyed the ordering |
| Delivery.PendingStays | src/runtime/delivery.rs:120-148 | a pending record outlives whatever producers do meanwhile |
| Delivery.HeadIsPending | src/runtime/delivery.rs:68-82 | the record handed to a send is pending in the store |
| Delivery.DrainedIsEmpty | src/runtime/delivery.rs:126-128 | Drained means no pending record is left |
| Delivery.DeliverBatch | src/runtime/delivery.rs:120-148 | at most 32 sends, each of the record that was the head when asked for, all steps in order and classed as the adapter answered; a retained or cancelled record is still pending; BatchComplete means exactly 32, Cancelled exactly a dropped send; an error only from a fault, a refused `next`, or a refused change of the record just sent |
| Delivery.Fetch | src/runtime/delivery.rs:125-130 | next and send: drained, cancelled exactly when the send was dropped, with the record pending, or one completed send of the head, as the adapter answered it |
| Delivery.Ask | src/runtime/delivery.rs:125-129 | `next` behind other producers: the head of the directory it found, Drained only without pending records, or its exact error |
| Delivery.Settle | src/runtime/delivery.rs:130-147 | the record gone or isolated from the directory the change found, and then its callback; Retain touches nothing; an error only after a fault or when that change is refused |
| Delivery.SettlesUnlessTaken | src/runtime/delivery.rs:130-147 | in a current directory the sole pending record is always settled, faults aside: only an isolated name that is taken stands in the way |
| Delivery.EverySendSettled | src/runtime/delivery.rs:120-148 | once a batch is idle, every send was followed by removal and `acknowledged`, removal and `discarded`, or isolation and `quarantined`, by how it was classed |
| Delivery.OneMoreSend | src/runtime/delivery.rs:125-130 | sends stay about the record that was the head when the batch asked |
| Delivery.Change | src/runtime/delivery.rs:68-82 | one durable step of the right kind with its exact effect, or none; Ok means it happened; an error by its condition |
| DeliveryHistory.HistoryInOrder | src/runtime/delivery.rs:120-148 | over any number of stretches, removals follow sends and callbacks follow changes |
| DeliveryHistory.Serve | src/runtime/delivery.rs:120-148 | opening the spool or delivering one batch is one stretch |
| DeliveryHistory.AnyDelivery | src/runtime/delivery.rs:120-148 | every run of openings and batches is a chain of such stretches, lawful from the files it started with |
| DeliveryHistory.CutRun | src/runtime/spool.rs:95-126 | stopping a run at any moment leaves a run |
| DeliveryHistory.ChainRuns | src/runtime/spool.rs:95-126 | a run that starts where another one stopped continues it |
| DeliveryHistory.NothingLost | src/runtime/delivery.rs:68-148 | conservation at every moment of every run of the service: every record is in exactly one place, and each removed one was sent to a final answer first |
| DeliveryHistory.NeverSentAgain | src/runtime/delivery.rs:125-147 | whatever stops and restarts come between, a removed or isolated record is never sent again |
| Backoff.ExponentialBackoff | src/runtime/mod.rs:181-198 | accepted exactly within the limits; the delay is the smaller of the maximum and the multiplier times min(base * 2^min(n, 30), maximum), so equals the latter without jitter |
| Backoff.RetryBackoff.NextDelay | src/runtime/delivery.rs:43-52 | the delay of the current attempt, and the saturating count |
| Backoff.NewRetryBackoff | src/runtime/delivery.rs:23-38 | a policy is accepted exactly within the limits |
| Backoff.AttemptCounts | src/runtime/delivery.rs:43-52 | the counter is the number of delays since a reset, saturating at 32 bits |
| Backoff.NthDelayWithoutJitter | src/runtime/mod.rs:181-198 | the nth delay without jitter is min(base * 2^min(n, 30), maximum), also past saturation |
| Backoff.BoundedGrows | src/runtime/mod.rs:181-198 | unjittered delays start at the base and never shrink |
| Backoff.DelayBounds | src/runtime/mod.rs:176-198 | with jitter a delay stays between the jittered base and the maximum |
| Worker.DeliveryWorker.StartDue | src/runtime/worker.rs:128-147 | which of recovery and batch is started, and the earlier deadline of the two |
| Worker.DeliveryWorker.FinishRecovery | src/runtime/worker.rs:151-178 | the new state for each recovery result; a renewal drops the batch in flight and lifts the block |
| Worker.DeliveryWorker.FinishBatch | src/runtime/worker.rs:179-219 | the new state for each batch result |
| Worker.DeliveryWorker.RecordFailure | src/runtime/worker.rs:18-32 | saturating streak that fails from 100 on |
| Worker.DeliveryWorker.Notified | src/runtime/worker.rs:220-228 | a notification arms the timer only when idle and not blocked |
| Worker.DeliveryWorker.Pass | src/runtime/worker.rs:123-230 | one pass of the loop is exactly one step of the state machine of `WorkerRuns` |
| WorkerRuns.InvHolds | src/runtime/worker.rs:103-231 | the invariant behind wakeups, blocking and deadlines holds on every run |
| WorkerRuns.NoLostWakeup | src/runtime/worker.rs:46-228 | a queued record whose producer has notified implies a token, a set timer, a block or an exit |
| WorkerRuns.NeverSleepsPastDeadline | src/runtime/worker.rs:138-149 | the select never waits past the next recovery or retry |
| WorkerRuns.BlockedIsQuiet | src/runtime/worker.rs:132-228 | blocked implies no batch in flight, no timer and no batch started |
| WorkerRuns.OnlyRenewalUnblocks | src/runtime/worker.rs:151-178 | only a renewed recovery ends a block |
| WorkerRuns.BlockedUntilRenewal | src/runtime/worker.rs:151-229 | after an authorization failure no batch starts before a renewal |
| WorkerRuns.OneInFlight | src/runtime/worker.rs:128-137 | a batch or a recovery starts only when none is in flight |
| WorkerRuns.ResultsAreFresh | src/runtime/worker.rs:129-171 | every classified result comes from a batch started after the latest renewal |
| WorkerRuns.BackoffHonoured | src/runtime/worker.rs:193-228 | after a delayed result no batch starts before its delay is over unless a renewal intervenes |
| WorkerRuns.StreakIsTrailingRun | src/runtime/worker.rs:15-32 | the streak is the trailing run of local errors, and ends the run exactly at 100 |
| WorkerRuns.AttemptCountsDelays | src/runtime/worker.rs:179-219 | the attempt counter is the number of delayed results since the last success or renewal |
| WorkerRuns.NthDelayInRun | src/runtime/worker.rs:179-219 | so the nth consecutive delay of a run without jitter is the capped doubling |
| WorkerStarts.TopStartsExactly | src/runtime/worker.rs:128-137 | at every pass a recovery is in flight afterwards exactly when one was or its time has come, a batch exactly when one was or the worker is not blocked and its timer is due; nothing else changes |
| WorkerStarts.DeadlineExact | src/runtime/worker.rs:138-147 | the deadline is the least of the times still waited for, an hour if there is none |
| WorkerStarts.RecoveryAtNextPass | src/runtime/worker.rs:202-211 | both answers that blame the credential have a recovery in flight at the next pass |
| WorkerStarts.BatchAtNextPass | src/runtime/worker.rs:163-228 | a full batch, a renewal, and a notification without block or timer have a batch in flight at the next pass |
| WorkerStarts.ScheduleStep | src/runtime/worker.rs:151-211 | the recovery time changes exactly as polls, failed polls and credential answers schedule it |
| WorkerStarts.RecoveryStartsWhenDue | src/runtime/worker.rs:128-178 | over runs: until rescheduled, the next recovery starts at the first pass not earlier than `d` after a poll answering `d`, or the delay of its own failure count after a failed one |
| WorkerStarts.RecoveryAttempts | src/runtime/worker.rs:161-175 | the recovery counter is the number of failed polls since the last answer |
| WorkerStarts.TimerStep | src/runtime/worker.rs:132-228 | timer, batch in flight and block change exactly by starts, results, renewals and accepted notifications |
| WorkerStarts.BatchStartsWhenDue | src/runtime/worker.rs:132-137 | over runs: the batch starts at the first pass not earlier than the time the timer was armed for |
| WorkerStarts.FirstStarts | src/runtime/worker.rs:113-137 | a fresh worker polls at its first pass and starts its first batch a millisecond after its start |
| WorkerStarts.IdleUntilNotified | src/runtime/worker.rs:182-228 | after a drained queue no batch starts before a notification or a renewal |
| WorkerStarts.ExitExactly | src/runtime/worker.rs:150-196 | a run ends exactly at a shutdown, a poll interval out of range, or the hundredth local error in a row |
| StateLocks.Acquire | src/state_file/mod.rs:375-390 | a guard exists if and only if flock was granted; a refusal changes nothing |
| StateLocks.StateLock.Unlock | src/state_file/mod.rs:391-400 | unlocks once and clears `held` |
| StateLocks.StateLock.Drop | src/state_file/mod.rs:410-419 | a dropped guard that was released changes no lock |
| StateLocks.StepKeeps | src/state_file/mod.rs:206-278 | every step of every process keeps the kernel sane, each held lock backed by its description, and guards apart |
| StateLocks.InvHolds | src/state_file/mod.rs:206-278 | so the invariant holds on every interleaving |
| StateLocks.HeldPairExcludes | src/state_file/mod.rs:369-390 | an exclusive lock and any other held lock are on different inodes |
| StateLocks.UnlockHandsOff | src/state_file/mod.rs:391-400 | unlocking hands the description off: no client holds it and its only one is releasing |
| StateLocks.HandOffKept | src/state_file/mod.rs:206-278 | no step but an alias call changes a description that was handed off |
| StateLocks.GuardsExclude | src/state_file/mod.rs:206-268 | two instance guards, or an exclusive maintenance guard and an instance, diagnostic or other exclusive one, never both pass `verify_identity`, however names are rebound |
| StateLocks.ReleasedIsLeftAlone | src/state_file/mod.rs:391-470 | over runs: once a guard has unlocked a description and an alias locks it again, the lock stays as the alias set it whatever drops, crashes and other processes do |
| StateLocks.MarkerKept | src/state_file/mod.rs:206-278 | each step keeps the marker away from clients that passed the pending check |
| StateLocks.NoMarkerUnderInstanceGuard | src/state_file/mod.rs:206-278 | with names left bound, the pending marker is absent for the whole life of every instance guard |
| LockGrants.MaintenanceLockGranted | src/state_file/mod.rs:206-278 | an instance or a diagnostic gets the maintenance lock if and only if nobody else holds it exclusively, a maintainer if and only if nobody else holds it |
| LockGrants.InstanceLockGranted | src/state_file/mod.rs:216-222 | the instance lock is granted if and only if nobody else holds it |
| LockGrants.MaintenanceLockTaken | src/state_file/mod.rs:206-278 | the granted lock is held in exactly that mode and nothing else changed |
| LockGrants.InstanceStarts | src/state_file/mod.rs:201-232 | wherever neither lock is in the way and no marker pending, an instance gets a guard that passes `verify_identity` |
| LockGrants.DiagnosticStarts | src/state_file/mod.rs:252-268 | so does a diagnostic, instances running or not |
| LockGrants.DiagnosticJoinsInstance | src/state_file/mod.rs:201-268 | beside any instance guard that verifies a diagnostic gets its guard, and both verify |
| LockGrants.GuardsMeet | src/state_file/mod.rs:201-268 | hence a run reaches both guards |
| LockGrants.BoundGuardsVerify | src/state_file/mod.rs:153-188 | a guard whose names stayed bound always passes `verify_identity` |
| LockGrants.InstanceUnderMaintenance | src/state_file/mod.rs:201-232 | on every run the instance lock is held only under the maintenance lock |
| Rotation.RetainedMove | src/log/rotating.rs:186-193 | moving a file to the free slot behind it changes nothing a reader of all slots sees |
| Rotation.RotationDropsOldest | src/log/rotating.rs:179-199 | a rotation drops exactly the oldest archive and keeps everything else in order |
| Rotation.LogDirectory.Shift | src/log/rotating.rs:186-193 | a rename into a slot required to be free; every state stays a contiguous suffix of what was written |
| Rotation.LogDirectory.Append | src/log/rotating.rs:172-176 | the whole line, or a failure after any part of it |
| Rotation.UnixSink.ShiftArchives | src/log/rotating.rs:181-190 | the shift loop moves every archive up by one over gaps and never onto a file, and fails only after a fault or at an unsound archive |
| Rotation.UnixSink.Rotate | src/log/rotating.rs:179-199 | on success every file moved up one slot, the oldest went, the active file is new and empty |
| Rotation.UnixSink.Write | src/log/rotating.rs:155-178 | exact new slots and files on success; succeeds, faults aside, exactly for a record, a settled sink and sound files, the archives only when the line does not fit; one whole line more in the last file, or a fragment after which the sink never writes again; a contiguous suffix at every moment |
| Rotation.WriteRotatesExactly | src/log/rotating.rs:163-199 | a line that fits is added to the active file; one that does not opens a new one and every file moves up one slot |
| Rotation.OpenUnix | src/log/rotating.rs:73-153 | opens exactly when directory, writer lock, limits, archive names, slot numbers, sizes and file checks are in order, faults aside, whatever the active file ends in |
| RotationLines.FilesLines | src/log/rotating.rs:155-199 | over all files, each read on its own: the lines found and then exactly the lines written if and only if the file active on opening was empty or ended in a newline or got no line; once it is dropped only written lines |
| RotationLines.JoinedLines | src/log/rotating.rs:155-199 | the same condition for the concatenation of all slots |
| RotationLines.UnixLines | src/log/rotating.rs:73-199 | both hold of every sink in step with its file, before and after any number of rotations |
| RotationLines.LineLostAfterReopening | src/log/rotating.rs:73-178 | for every line torn at any byte, the file can be opened and the next line written is no line of it |
| RotationLines.WriteReopenWrite | src/log/rotating.rs:73-178 | a torn write, a reopening and a successful write: that line is the end of a longer line, the last one found |
| Rotation.CheckArchives | src/log/rotating.rs:144-151 | the archive check of opening |
| Rotation.WindowsSink.CheckedArchive | src/log/windows_rotating.rs:827-848 | presence of a slot, and an error exactly for a bad one or after a fault |
| Rotation.WindowsSink.Rotate | src/log/windows_rotating.rs:849-898 | the same rotation; with any bad archive nothing is deleted or moved |
| Rotation.WindowsSink.WriteLine | src/log/windows_rotating.rs:788-808 | one line in place or after a rotation, with the file and counter in step |
| Rotation.WindowsSink.Write | src/log/windows_rotating.rs:776-787 | succeeds, faults aside, exactly for a record, a sink that has not failed and good files, the archives only when the line does not fit; any failed write marks the sink failed, and a failed sink never changes a file again |
| RotationLines.WindowsLines | src/log/windows_rotating.rs:776-898 | both hold of every sink that has not failed, before and after any number of rotations |
| LogTail.LinesSplit | src/cli/tail.rs:86-91 | splitting loses nothing and every line but the last ends in its only newline |
| LogTail.LinesAppend | src/cli/tail.rs:86-91 | behind a newline, splitting distributes over concatenation |
| LogTail.AppendedLines | src/cli/tail.rs:86-91 | lines appended to a text stay lines exactly when it is empty or ends in a newline |
| LogTail.GluedLine | src/cli/tail.rs:86-91 | a fragment takes the line behind it |
| LogTail.Position | src/cli/tail.rs:76-80 | the first newline |
| LogTail.AnyTooLong | src/cli/tail.rs:86-91 | whether some line exceeds the limit |
| LogTail.ReadTailLines | src/cli/tail.rs:46-93 | exactly the longest suffix within the byte limit that starts a line; truncated exactly when there is none; too large exactly when the cut fragment or a line is |
| LogQuery.CheckExact | src/cli/mod.rs:780-794 | a part passes exactly when every record is an object within its budget and their sum is |
| LogQuery.AddEntry | src/cli/mod.rs:789-799 | the buffer is the last tail + 1 stamped records, and the map counts contents |
| LogQuery.AddPart | src/cli/mod.rs:780-800 | the same over the records of one part, or the first error |
| LogQuery.ReadPart | src/cli/mod.rs:767-779 | the records of one slot by the longest whole-line suffix |
| LogQuery.CursorsDistinct | src/cli/mod.rs:789-795 | no two records of one query carry the same cursor |
| LogQuery.Select | src/cli/mod.rs:805-817 | without a cursor the last tail; with one exactly what follows its record, or a gap |
| LogQuery.QueryRotatingLogs | src/cli/mod.rs:738-819 | that answer over the concatenated suffixes of all slots, oldest first, or the first error |
| LogErrors.CheckBreaks | src/cli/mod.rs:780-796 | the check of a slot answers the error of its first record that breaks a condition, and none if there is no such record |
| LogErrors.SlotDecided | src/cli/mod.rs:767-796 | a slot gives records only if it was read, is at most 8 MiB, has a readable suffix that decodes to at most 16384 records within budget; otherwise the error that names the broken condition |
| LogErrors.SlotExclusive | src/cli/mod.rs:767-796 | and never both, nor two errors |
| LogErrors.GatherDecided | src/cli/mod.rs:759-801 | all slots together: their records, oldest first, or the error of the oldest slot that cannot be used |
| LogErrors.QueryDecided | src/cli/mod.rs:738-819 | a query answers that error if and only if some slot cannot be used, and otherwise from the records of all slots |
| LogFollow.CursorSurvives | src/cli/mod.rs:789-795 | after a drop at the front a cursor names the same record if and only if no dropped record had its content |
| LogFollow.FollowAfterDrop | src/cli/mod.rs:761-817 | for every followed record, dropped or kept, every answer after a drop at the front is a gap or exactly what follows if and only if no dropped record has its content or its cursor names nothing in the window |
| LogFollow.RightHoldsAll | src/cli/mod.rs:805-817 | a right answer holds exactly the records of the log behind the followed one |
| LogFollow.FollowCanSkip | src/cli/mod.rs:805-817 | three equal records, the first dropped: the unseen third is not answered |
| LogFollow.FollowCanSkipDropped | src/cli/mod.rs:805-817 | the followed record is dropped and an equal later one takes its place |
| LogSlots.ReadWhole | src/cli/tail.rs:62-65 | a slot is read whole exactly when it is at most 1 MiB |
| LogSlots.LineDecoderByLines | src/cli/mod.rs:1311-1316 | a decoder of one record per line works line by line and finds a record in every text |
| LogSlots.SlotReading | src/cli/mod.rs:771-779 | of a slot a query reads a tail of its records, all of them exactly when it is at most 1 MiB |
| LogSlots.GatherIsReading | src/cli/mod.rs:761-801 | what a query gathers from its slots is a reading of the whole log in order |
| LogSlots.ReadsAll | src/cli/mod.rs:761-801 | the whole log is read exactly when no slot is longer than 1 MiB |
| LogSlots.FollowIntoSlots | src/cli/mod.rs:761-817 | every answer is a gap or exactly the records behind the followed one if and only if no newer slot is longer than 1 MiB or the record has left the window |
| LogSlots.FollowAcrossSlots | src/cli/mod.rs:761-817 | for any record of the log and any cursor of it: right if and only if a gap, or no unread front lies behind it and as many equal records are read up to it as the cursor counts |
| LogSlots.FollowCanSkipUnread | src/cli/mod.rs:767-817 | real slot bytes: 65 different records of 16 KiB in one file, the first of which is never answered |
| Unicode.Utf8Exact | src/cli/terminal.rs:204-212 | `String::from_utf8` accepts exactly the encodings, one per text |
| Unicode.FirstOfUtf8 | src/cli/terminal.rs:204-212 | by the byte ranges of the grammar in section 4 of RFC 3629 the front of an encoding decodes to its scalar |
| Unicode.HasTailBits | src/cli/terminal.rs:214-222 | testing the two top bits finds exactly the continuation bytes |
| Unicode.Utf16Exact | src/cli/terminal.rs:404-407 | `String::from_utf16` accepts exactly the encodings, one per text |
| Unicode.Utf8Carries | src/cli/terminal.rs:200-245 | each form carries its scalar in the payload bits that section 3 of RFC 3629 gives it |
| Unicode.StandardExamples | src/cli/terminal.rs:200-245 | the examples of RFC 3629 and RFC 2781 |
| Unicode.DecodesOn | src/cli/terminal.rs:403-471 | behind an encoded text decoding goes on with what follows |
| Unicode.DanglingHigh | src/cli/terminal.rs:404-407 | a text with a lone high surrogate behind it is refused |
| LineEditors.UnixInput | src/cli/terminal.rs:200-245 | the byte editor computes its specification on any byte stream |
| LineEditors.EraseUnits | src/cli/terminal.rs:409-430 | backspace removes one scalar or a pending surrogate and adjusts the counter exactly |
| LineEditors.TypeUnit | src/cli/terminal.rs:433-465 | a unit completes a scalar, waits for its pair, is invalid or overflows; the counter follows |
| LineEditors.WindowsInput | src/cli/terminal.rs:403-471 | on any unit stream the buffer is whole scalars and at most a pending surrogate, and the counter is their UTF-8 length |
| LineEditors.StripScalar | src/cli/terminal.rs:214-226 | erasing bytes removes exactly the last scalar |
| LineEditors.BytesRefine | src/cli/terminal.rs:200-245 | on every key sequence the byte editor is the scalar editor |
| LineEditors.UnitsRefine | src/cli/terminal.rs:403-471 | so is the UTF-16 editor |
| LineEditors.RefusedExactlyWhenFull | src/cli/terminal.rs:229-236 | input is too large exactly when some key first makes the text longer than the limit |
| RawInput.PlainBytes | src/cli/terminal.rs:200-245 | plain bytes and Enter: submitted exactly when they encode the text, invalid when they encode none, too large beyond the limit |
| RawInput.IgnoredBytes | src/cli/terminal.rs:227-228 | control bytes without a meaning change nothing in any buffer |
| RawInput.StripShape | src/cli/terminal.rs:214-226 | erasing takes the continuation bytes at the end of any buffer and the one byte in front of them |
| RawInput.ErasedBytes | src/cli/terminal.rs:214-226 | and both erase keys do so |
| RawInput.PlainUnits | src/cli/terminal.rs:403-471 | plain units and Enter: submitted exactly when they encode a text that fits; invalid only if they encode none, lone surrogates included; too large only if some front of them is a text that does not fit |
| RawInput.IgnoredUnits | src/cli/terminal.rs:395-432 | unit 0, a line feed and other control codes change nothing, not even between the halves of a pair |
| RawInput.WaitingSurrogate | src/cli/terminal.rs:403-445 | erasing a pending surrogate restores the line, and Enter behind it is invalid |
| ArgumentQuoting.QuoteArgument | src/cli/elevation.rs:200-225 | the loop with its backslash counter computes the quoted form |
| ArgumentQuoting.ScanQuoted | src/cli/elevation.rs:200-225 | the parser reads one quoted argument back and stops behind it |
| ArgumentQuoting.RoundTrip | src/cli/elevation.rs:137-143 | parsing the joined quoted arguments gives exactly the list, for every list, with the documented reading of doubled quotes and with two others in use |
| ArgumentQuoting.JoinInjective | src/cli/elevation.rs:137-143 | different lists never give the same command line |
| ArgumentQuoting.BareExactly | src/cli/elevation.rs:200-207 | an argument is passed unquoted if and only if it is not empty and has neither whitespace nor a quote |
| Handles.HandleBits | src/mobile_ffi/mod.rs:282-293 | the slot is the low half and the generation the high half, and `from_u64` undoes `to_u64` |
| Handles.BitsHandle | src/mobile_ffi/mod.rs:282-293 | `to_u64` undoes `from_u64` |
| Handles.ShiftAndOr | src/mobile_ffi/mod.rs:283-285 | shifting and or-ing gives the word with that quotient and remainder by 2^32 |
| Handles.TruncateAndShift | src/mobile_ffi/mod.rs:287-292 | the truncated cast and the shift are remainder and quotient |
| Handles.ChosenIsFirst | src/mobile_ffi/mod.rs:311-315 | an insertion takes the first reusable slot |
| Handles.InsertionExact | src/mobile_ffi/mod.rs:309-338 | an insertion takes the first free slot with its next generation, or a new one, and fails exactly when 4096 slots are taken or worn out |
| Handles.HandleRegistry.Insert | src/mobile_ffi/mod.rs:309-338 | the handle and the new slots, or exhaustion with nothing changed |
| Handles.HandleRegistry.Get | src/mobile_ffi/mod.rs:339-347 | the value of a live handle, otherwise invalid |
| Handles.HandleRegistry.Remove | src/mobile_ffi/mod.rs:348-356 | takes the value of a live handle, otherwise changes nothing |
| Handles.TableRefinesMap | src/mobile_ffi/mod.rs:309-356 | on every run the table is the map of live handles, all handles ever issued differ, and there are at most 4096 slots |
| Handles.RemovedForever | src/mobile_ffi/mod.rs:309-356 | a removed handle is invalid after whatever follows |
| Handles.ExhaustedSlotRetires | src/mobile_ffi/mod.rs:311-315 | a freed slot whose generation ran out is never used again |
| Inventory.UnixInventory | src/fs_safety/unix.rs:679-747 | terminates; succeeds exactly when both totals fit, all nodes are directories or single-linked files and at most 128 directories are open; gives the recursive count and sum |
| Inventory.WindowsInventory | src/fs_safety/windows.rs:972-1006 | the same verdict and totals without the nesting limit |
| Inventory.LeftRead | src/fs_safety/unix.rs:690-706 | reading an entry moves exactly its own count and size out of the work left |
| Inventory.FitsRead | src/fs_safety/unix.rs:738-743 | the stack needs 129 entries exactly when the tree nests that deep |
| XmlBudget.Preflight | src/secure_xml/mod.rs:34-107 | the loop computes the scan of the event list, with the first error |
| XmlBudget.OctetsGrow | src/secure_xml/mod.rs:51-65 | what the scan counts for a piece is the UTF-8 size of the characters it stands for |
| XmlBudget.ScanMeasures | src/secure_xml/mod.rs:34-120 | from any state, scanning items succeeds exactly when their merged tree fits what is left, and adds exactly its measures |
| XmlBudget.PreflightExact | src/secure_xml/mod.rs:34-120 | a document is accepted exactly when it has no DOCTYPE or undeclared reference and node count, depth, total text and longest merged text node, measured as the UTF-8 of their characters, are within budget |
| SchemaFraming.AcceptedExact | src/schema_identity/mod.rs:216-250 | comparing neighbours accepts exactly the lists of admissible rows with strictly increasing keys |
| SchemaFraming.ErrorNamed | src/schema_identity/mod.rs:216-250 | a refused list has a first bad row, and the error says what is wrong with it |
| SchemaFraming.ExcludedExactly | src/schema_identity/mod.rs:221-226 | exactly `product_metadata` and names that start with `sqlite_` are excluded |
| SchemaFraming.FrameFront | src/schema_identity/mod.rs:252-265 | a length-framed field is read back uniquely |
| SchemaFraming.FramesInjective | src/schema_identity/mod.rs:252-265 | equal digest inputs come only from equal row lists |
| SchemaFraming.RowLayout | src/schema_identity/mod.rs:252-265 | the four fields of a row in order, each behind its length, most significant octet first |
| SchemaFraming.OneCanonicalOrder | src/schema_identity/mod.rs:207-250 | a set of rows has at most one accepted order |
| SchemaFraming.FrameFields | src/schema_identity/mod.rs:252-265 | the field loop gives the row's frames, or refuses a field of 2^64 bytes |
| SchemaFraming.SchemaFingerprint | src/schema_identity/mod.rs:216-267 | the first error of the list, or the digest of its framing, for canonical lists only |

## Left out
- SpoolHistory.Accounting: assumes each published identifier is a fresh random draw; a repeated draw reaches the duplicate error of `find`, which is modelled.
- SpoolDirectory.Directory.Publish: models the Linux rename; between `linkat` and `unlinkat` on other Unix targets a stop leaves two links, which `files` then refuses. IdentityChanged needs another process to replace the published file and is not modelled.
- Delivery.DeliverBatch: which calls fail, what a send answers and when it is dropped is up to the environment; nothing is claimed about how often it does so.
- SpoolOperations.OpenSpool: a poisoned mutex is not modelled; it changes nothing.
- StateLocks.GuardsExclude: an alias may change a description only once no guard holds it (the hand-off); unlock failures, link counts, owners and modes are not modelled.
- Backoff.DelayBounds: seconds and the jitter multiplier are reals, the multiplier anywhere in the jitter range; 64-bit floating-point rounding is not modelled.
- Rotation.UnixSink.Write: the directory and writer-lock checks of `write` are not modelled; they only add refusals that change nothing.
- LogQuery.QueryRotatingLogs: reads the slots the caller's reader finds under `stem.jsonl.N`; the Unix `open` constructor writes `stem.N.jsonl` (src/log/rotating.rs:204-209), so its archives are outside a query. Its result is over the last 1 MiB of each part. Parsing the `--tail` text and the check of the stem's characters are not modelled.
- LogTail.ReadTailLines: the source does not change while it is read; SourceChanged and I/O errors are not modelled.
- LineEditors.WindowsInput: the counter does not saturate at the machine word, which no input reaches; key repeat counts are expanded in the stream.
- XmlBudget.PreflightExact: the clock, the byte budget, malformed markup and the later DOM parse are not modelled; texts are given after line-end normalisation.
- ArgumentQuoting.RoundTrip: the program name, which Windows parses by other rules, and strings with a NUL are not modelled.
- Inventory.UnixInventory: a fixed snapshot of the tree; I/O errors and IdentityChanged are not modelled.
- Spool `usage`, `doctor` and the read-only inspections: counts over the same listing.
- File names that are not UTF-8: any name that does not parse takes the same refusal.
- Windows ACLs, SIDs and tokens, descriptor walking, ownership and mode checks: only their success or failure appears, where a core depends on it.
- Hash internals, secret envelopes, SQLite, service managers, subprocess capture, status sockets, tracing, JNI and raw FFI memory: foreign calls with no visible semantics.
- Command-line option tables, error texts, redaction and identifier validators outside the spool: single-function claims.
