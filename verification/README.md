# A verified model of the agency platform's stateful core

The agency platform deploys agent definitions to runtimes. Its server, its command
line and its Hermes adapter each have a part whose promise is about every run or
every input rather than about one call. This project models those parts in Dafny and
proves the promises.

| Dafny files | Part of the platform |
|---|---|
| `RateLimit` | the token buckets that admit or refuse requests |
| `IdempotencyTable`, `Idempotency`, `IdempotencyAnswers`, `IdempotencyCounts`, `IdempotencyReplay`, `IdempotencyUnsafe` | the Idempotency-Key middleware: many concurrent requests over one table of keys |
| `AuditRecorder`, `AuditRuns`, `AuditTurns`, `AuditChain`, `AuditVerify`, `AuditText` | the audit recorder: a bounded queue, its fallback, the batching flush task, and the hash chain of the rows and the text it covers |
| `RollbackDisk`, `Rollback`, `RollbackJournal`, `RollbackOutcome`, `RollbackSafety`, `RollbackRerun`, `RollbackTwice`, `RollbackBackups` | the rollback of a deployment, over a file system that can crash |
| `McpScalar`, `McpManifest`, `McpReader`, `McpFolding`, `McpYaml11` | the hand-written YAML printer for MCP manifests, and readers of what it prints under YAML 1.2 and under YAML 1.1 |
| `GitTreeWalk`, `GitQuotas` | the quota check on fetched repositories |
| `Health`, `HealthWalk` | the health check of deployed plugins |
| `RouterPlugin`, `RouterText`, `RouterHash`, `Slugs` | the rendering of router plugins, and the two checks on names |
| `SessionCookie` | reading the session id from a Cookie header |
| `Wrappers`, `Permutations`, `Sorting`, `OrderedMaps`, `Segments`, `Texts` | shared definitions |

Classes and loops stand where the source has them: each method is proved against a
specification function or relation, and the theorems are about those. What the
environment decides (clock readings, failing calls, listings of directories, temporary
names, the interleaving of tasks) is a parameter or a step. SHA-256 and the HMAC are
function parameters, and no general statement assumes that they do not collide: where a
collision would matter, the statement has it as an alternative. Only the one example run
of `IdempotencyUnsafe.LateFinaliseBreaksReplay` takes two bodies whose hashes differ.
Strings are sequences of Unicode scalar values, ordered by code point, which is the
order of their UTF-8 bytes.

## What the proofs found

- A handler that outlives its row's time to live finalises whatever row holds its slot
  by then, and a later request replays the response of another request
  (`IdempotencyUnsafe.LateFinaliseBreaksReplay`). From every state and with any body
  this follows once a row is collected whose request is still at work, so a collection
  is harmless if and only if it takes no such row
  (`IdempotencyUnsafe.CollectionIsHarmlessExactly`).
- The comment at `crates/server/src/idempotency.rs:409-418` says that after a failed
  finalise the next retry runs the handler again. The code leaves the row in flight, so
  retries get 409 until the row is collected (`IdempotencyReplay.UncachedRowBlocks`).
  The comment at lines 267-278 says the route is the matched path; the code uses the
  path of the request, and so does the model.
- Flushed batches carry no hashes, so the audit chain verifies exactly until the first
  batch commits (`AuditChain.RunVerifiesUntilFirstFlush`). The documentation of
  `compute_record_hash` calls its separator unambiguous; it is not when fields hold
  colons (`AuditText.ColonsMakeTextAmbiguous`). Which rows the text fixes is
  `AuditText.TextFixesExactly`: those with no colon in actor, action and target, and no
  piece `ok` or `error` in the details before their last colon.
- The documentation of the flush task (`crates/server/src/audit_recorder.rs:610-616`)
  mentions a wake-up at `batch_size` events. The loop only has the tick, and with a
  batch size of zero it never drains (`AuditRuns.ZeroBatchNeverDrains`).
- The retry advice of a bucket is right if and only if the bucket can hold a token and
  refills one within a minute (`RateLimit.RetryAdviceExact`).
- A cookie whose name only begins with `agency_session` hides a later session cookie
  (`SessionCookie.ShadowedSessionIsLost`); `SessionCookie.ParseExactly` says when.
- Reordering agents that share a slug but not a body changes the skill files
  (`RouterPlugin.OrderIsForgottenExactly`). The skills hash cannot tell two agents from
  one whose body holds the other's slug and body as lines; it fixes the agents exactly
  when there is one at most and no inner line of its body could be the slug of a next
  one (`RouterHash.HashInputFixesExactly`).
- A failed entry of a rollback leaves its temporary file exactly when the write, the
  sync or the rename is what failed (`RollbackRerun.TempIsLeftExactly`); without failing
  calls that is when the target is a directory (`RollbackRerun.DirectoryTargetLeavesTemp`).
- A rollback of `a` also takes the backups of `a.md`
  (`RollbackBackups.ForeignBackupIsPicked`); `RollbackBackups.OwnIsPickedExactly` says
  when a target is safe from that whatever the modification times.
- The journal is asked for its transition after the files have been restored, so rolling
  back an operation that may not be rolled back restores its files and then fails
  (`Rollback.RollbackAt`); an operation that is committing may not, although the
  documentation of `JournalService::rollback` says every non-terminal one may.
- The printer of MCP manifests escapes what YAML 1.2 asks for. A reader of YAML 1.1 reads
  a next-line character in a string as a space, without an error
  (`McpYaml11.NextLineIsLost`). `McpYaml11.RoundTripExactly11` says which manifests come
  back, which are refused, and so which are read as another specification: a string comes
  back if each character is escaped or allowed, none is a next line, no space stands
  beside a line or paragraph separator, and no document marker follows one.
- Two files of a plugin are checked as one exactly when their paths have the same pieces
  between slashes and backslashes (`HealthWalk.NoFileIsLostExactly`).
- The comment on `dir_size` says it follows links; the code does not.

## Model

| member | source | states |
|---|---|---|
| RateLimit.Bucket.constructor | crates/server/src/rate_limit.rs:110-117 | A bucket starts full, at the time it is made |
| RateLimit.Bucket.TryConsume | crates/server/src/rate_limit.rs:119-130 | Refills lazily up to the capacity, then takes a whole token or refuses; the new state is `Consume` of the old, of which `RefusedExactly` says which calls it admits |
| RateLimit.Bucket.AdviseRetry | crates/server/src/rate_limit.rs:132-136 | Advises the seconds until a token is there, at least 1 and at most 60 |
| RateLimit.Bucket.Ask | crates/server/src/rate_limit.rs:188-198 | One check of a bucket: its answer with the advice, and its new state |
| RateLimit.RateLimiter.Default | crates/server/src/rate_limit.rs:166-168 | A limiter with no bucket yet that gives each new key 200 tokens and 100 a second, and all anonymous requests 10 and 10 |
| RateLimit.RateLimiter.Entry | crates/server/src/rate_limit.rs:188-191 | The key's bucket, inserted full if the key is new; every key that was there keeps its bucket as it was |
| RateLimit.RateLimiter.AskEntry | crates/server/src/rate_limit.rs:192-198 | Asking one key's bucket changes no other |
| RateLimit.RateLimiter.Check | crates/server/src/rate_limit.rs:182-199 | The answer of the key's own bucket; the table changes at that key only, and the anonymous bucket not at all |
| RateLimit.RateLimiter.CheckAnonGlobal | crates/server/src/rate_limit.rs:212-217 | The answer of the one anonymous bucket; the table does not change |
| RateLimit.TokensStayInBounds | crates/server/src/rate_limit.rs:119-130 | Over every sequence of calls tokens stay in [0, capacity] |
| RateLimit.RefillComposes | crates/server/src/rate_limit.rs:119-123 | Refilling at t1 and then at t2 is refilling once at t2 |
| RateLimit.RefusedCallsDoNotMatter | crates/server/src/rate_limit.rs:119-136 | Deleting any set of refused calls changes no other answer or advice |
| RateLimit.WindowBound | crates/server/src/rate_limit.rs:109-130 | In any window of length d one bucket admits at most capacity + rate * d calls, whatever the calls |
| RateLimit.RefusedExactly | crates/server/src/rate_limit.rs:109-130 | The converse, for a bucket full at its creation: call i is refused if and only if, for some call j up to i, more than capacity + rate * (t_i - t_j) - 1 of the calls from j to before i were admitted |
| RateLimit.BurstIsExactly | crates/server/src/rate_limit.rs:119-130 | Of simultaneous calls a full bucket admits exactly the first as many as it holds whole tokens |
| RateLimit.DefaultBurst | crates/server/src/rate_limit.rs:83-98 | On a new default key these are the first 200, on the anonymous bucket the first 10 |
| RateLimit.DefaultWindow | crates/server/src/rate_limit.rs:83-84 | A key of a default limiter gets at most 200 + 100 d calls through in any d seconds |
| RateLimit.AnonymousWindow | crates/server/src/rate_limit.rs:85-98 | All anonymous requests together: at most 10 + 10 d in any d seconds |
| RateLimit.RetryAdviceExact | crates/server/src/rate_limit.rs:132-136 | For every rate from zero up, the call made exactly when advised succeeds if and only if the bucket can hold a token and one refills within 60 seconds |
| RateLimit.AdviceIsExactly | crates/server/src/rate_limit.rs:132-136 | No advice with an admission; with a refusal the least whole number of seconds from 1 up that refills a token, or 60 |
| RateLimit.RetryAdviceSucceeds | crates/server/src/rate_limit.rs:119-136 | With room for a token and one token a minute the advised call succeeds, whatever refused calls come in between |
| RateLimit.RetryAdviceIsNotPadded | crates/server/src/rate_limit.rs:132-136 | Advice above 1 is least: nothing a second or more early is admitted |
| RateLimit.SpacedCallsAreNeverRefused | crates/server/src/rate_limit.rs:119-130 | A lone caller spacing its calls 1/rate apart is never refused |
| RateLimit.KeysAreIndependent | crates/server/src/rate_limit.rs:182-199 | In any interleaving over many keys, each key is answered as by a private bucket run on that key's calls alone |
| IdempotencyTable.IdempotencyRepository.Lookup | crates/core/src/infrastructure/repository/idempotency_repository.rs:160-182 | The row of a (key, route), in flight while it has no response; expiry is not looked at |
| IdempotencyTable.IdempotencyRepository.RecordInFlight | crates/core/src/infrastructure/repository/idempotency_repository.rs:205-238 | Atomic insert-if-absent that says whether it made the row |
| IdempotencyTable.IdempotencyRepository.Finalize | crates/core/src/infrastructure/repository/idempotency_repository.rs:251-270 | Overwrites the response of whatever row has the slot |
| IdempotencyTable.IdempotencyRepository.GcExpired | crates/core/src/infrastructure/repository/idempotency_repository.rs:285-294 | Removes exactly the expired rows and counts them |
| IdempotencyAnswers.FinishedRowEndsRequest | crates/server/src/idempotency.rs:287-313 | In every run, a lookup that finds the row finished (first, second or polled) ends the request: in a replay of the row if and only if it was made for a body of the same hash, in 422 if and only if it was not |
| IdempotencyAnswers.RowInFlightIsWaitedFor | crates/server/src/idempotency.rs:533-578 | A row in flight is polled for, from 10 ms on and doubling to 250 ms; a poll ends in 409 exactly when more than five seconds have gone |
| IdempotencyAnswers.NoRowIsInserted | crates/server/src/idempotency.rs:313-368 | No row: the first lookup goes on to insert, the one after a lost insert is an error, a poll a conflict |
| IdempotencyAnswers.InsertsOnce | crates/server/src/idempotency.rs:313-368 | The insert makes a row in flight for a day if there is none; otherwise the row is looked up once more |
| IdempotencyAnswers.ResponseIsKeptExactly | crates/server/src/idempotency.rs:383-425 | A response is stored if and only if its body was buffered and its content type begins with application/json; any other goes out as it is |
| IdempotencyAnswers.ResponseIsStored | crates/server/src/idempotency.rs:418-425 | Storing changes the response of the slot's row, if there is one, and nothing else |
| IdempotencyAnswers.FailingCallIsReported | crates/server/src/idempotency.rs:287-433 | A failing database call ends in 500 and changes no row, except that a failed finalise still sends the response |
| IdempotencyAnswers.ArrivesAs | crates/server/src/idempotency.rs:183-260 | Which requests pass by the table, which are answered 400 or 413 at once, and which look up their key under method and path with the hash of their body |
| IdempotencyCounts.HandlerRunsNeedInsertions | crates/server/src/idempotency.rs:287-368 | In every interleaving, handler runs under a (key, route) never exceed insertions, and insertions are collections plus one if the row is there |
| IdempotencyCounts.AtMostOneRun | crates/server/src/idempotency.rs:313-368 | While the row was never collected, the handler ran at most once, in the one request whose insert succeeded |
| IdempotencyCounts.OutcomeTellsHandlerRuns | crates/server/src/idempotency.rs:183-442 | A request whose outcome is its own response ran the handler exactly once; a replay, conflict, mismatch or error ran it not at all |
| IdempotencyCounts.NoKeyMeansNoTable | crates/server/src/idempotency.rs:194-219 | Without a key or a mutating method a request runs the handler once and no step of it touches the table |
| IdempotencyCounts.PollingIsBounded | crates/server/src/idempotency.rs:533-578 | In every run, backoffs are 10 to 250 ms, the 24th lookup answers, and a conflict over a row still there comes only after more than 5 s |
| IdempotencyCounts.PollOrInFlight | crates/server/src/idempotency.rs:533-578 | The poll loop goes on exactly while the row is in flight and five seconds are not over; what the last lookup read, within 24, fixes the answer: 500 if it failed, 409 without a finished row, else the row's response if the hashes agree and 422 if not |
| IdempotencyCounts.BackoffSaturates | crates/server/src/idempotency.rs:540-558 | The backoff doubles to 250 ms and stays; what n polls have slept |
| IdempotencyReplay.ReplaysAreFaithful | crates/server/src/idempotency.rs:288-309 | If no row is collected while its request is at work, a replay carries the status, and the body if valid UTF-8, of the handler run by the request that inserted the row, which had the same key, route and body hash |
| IdempotencyReplay.PromptRunsAreSafe | crates/core/src/infrastructure/repository/idempotency_repository.rs:285-294 | That condition holds whenever no request at work has outlived its row's time to live at a collection |
| IdempotencyReplay.StepKeepsSafeInv | crates/server/src/idempotency.rs:287-433 | Every step keeps: each row belongs to the request that inserted it and holds its response or none; each replay is that of its row |
| IdempotencyReplay.StepKeepsSlotInv | crates/server/src/idempotency.rs:287-433 | Every step keeps this for one slot alone, if only that slot is not collected from under a request at work |
| IdempotencyReplay.EndingUncachedBlocks | crates/server/src/idempotency.rs:383-425 | A request that ends without caching (unbufferable, not JSON, failed finalise, abandoned) leaves its row in flight |
| IdempotencyReplay.BlockedRowIsReachable | crates/server/src/idempotency.rs:383-400 | Whatever request with a key comes first, an answer that is not JSON ends in such a row |
| IdempotencyReplay.UncachedRowBlocks | crates/server/src/idempotency.rs:533-578 | In any run that never collected this slot's row from under its request: until such a row is collected, whatever else is collected, no handler runs under its key, and every other request on it that ends gets 409 if none of its database calls fails and it is not abandoned, and is turned away in any case |
| IdempotencyUnsafe.LateFinaliseBreaksReplay | crates/server/src/idempotency.rs:418-425 | A run from the empty table in which a premature collection makes a request replay another body's response |
| IdempotencyUnsafe.PrematureCollectionBreaksReplay | crates/server/src/idempotency.rs:287-433 | From every state a safe run can reach in which a row is due while its request is at work, and with any body, the collection leads to a replay that returns the late request's response in place of the row's inserter's |
| IdempotencyUnsafe.CollectionIsHarmlessExactly | crates/core/src/infrastructure/repository/idempotency_repository.rs:285-294 | After any safe run, all replays in all continuations through a collection, with no later one, are faithful if and only if the collection takes no row whose request is at work |
| AuditRecorder.AuditRecorder.RecordAsync | crates/server/src/audit_recorder.rs:381-556 | Queued at the end if there is room; otherwise handed to a detached insert, counted if the queue was full |
| AuditRecorder.AuditRecorder.RecordSync | crates/server/src/audit_recorder.rs:337-357 | Inserts one row stamped with the time of the insert and returns its id, or reports the failure |
| AuditRecorder.AuditRecorder.Stats | crates/server/src/audit_recorder.rs:564-568 | The number of events that found the queue full, modulo 2^64 |
| AuditRecorder.AuditRecorder.FlushBatch | crates/server/src/audit_recorder.rs:679-727 | The whole batch is committed in order, or none of it |
| AuditRecorder.LostExactly | crates/server/src/audit_recorder.rs:679-727 | A batch is lost if and only if its begin, its commit or the insert of one of its rows fails |
| AuditRecorder.AuditRecorder.FlushRound | crates/server/src/audit_recorder.rs:648-675 | One turn takes the first min(queue, 2 * batch_size) events as one batch; it exits on a closed queue it has emptied |
| AuditRecorder.AuditRecorder.DrainClosed | crates/server/src/audit_recorder.rs:629-676 | Once closed, q queued events are gone after exactly q / (2 * batch_size) + 1 turns |
| AuditRuns.EventsAreConserved | crates/server/src/audit_recorder.rs:381-727 | In every reachable state the events recorded are, as a multiset, those queued, in the batch, in detached inserts, committed, or in a failed batch or insert |
| AuditRuns.QueueIsBounded | crates/server/src/audit_recorder.rs:441-500 | The queue never exceeds its capacity; the drop counter counts the events that found it full |
| AuditRuns.OrderIsKept | crates/server/src/audit_recorder.rs:653-670 | With no failed batch, flushed rows, batch and queue are together the accepted events in order |
| AuditRuns.OnlyWholeBatchesAreMissing | crates/server/src/audit_recorder.rs:679-727 | With failures, only whole contiguous batches are missing, and nothing is reordered |
| AuditRuns.QueuedEventIsTaken | crates/server/src/audit_recorder.rs:646-675 | The event at position p is taken by turn p / (2 * batch_size) + 1, whatever else is recorded |
| AuditRuns.ClosedQueueEmpties | crates/server/src/audit_recorder.rs:646-675 | Once closed with q events, the flusher is never stuck, begins at most q / (2 * batch_size) + 1 turns, and exits with the queue empty |
| AuditRuns.ZeroBatchNeverDrains | crates/server/src/audit_recorder.rs:653-654 | With a batch size of zero it never takes an event nor exits, so the bounds need a positive one |
| AuditRuns.StepKeepsInv | crates/server/src/audit_recorder.rs:381-727 | Every step of every task keeps order, conservation, the bounds and the drop count |
| AuditRuns.RowsAreStamped | crates/server/src/audit_recorder.rs:337-556 | Over every run, a flushed row keeps its event's time, any other has the time of the insert that made it, and a fallback event is lost only if its insert failed |
| AuditTurns.TurnIsRun | crates/server/src/audit_recorder.rs:646-727 | One turn of the flush task with nobody else at work is the run that ticks, receives up to twice the batch size and once more, and commits a batch that is not empty |
| AuditTurns.FlushTaskHasOneWay | crates/server/src/audit_recorder.rs:646-727 | There is no other: of two such runs of the flush task alone the shorter begins the longer |
| AuditTurns.FlushRoundIsTurn | crates/server/src/audit_recorder.rs:648-675 | FlushRound takes the recorder through the states of that run and exits exactly if it ends there |
| AuditTurns.RecordAsyncIsStep | crates/server/src/audit_recorder.rs:381-556 | RecordAsync takes the recorder through the step of that name |
| AuditTurns.RecordSyncIsStep | crates/server/src/audit_recorder.rs:337-357 | And so does RecordSync |
| AuditChain.VerifyChain | crates/core/src/infrastructure/repository/audit_log_repository.rs:419-511 | Reports the error of the first bad row, or none exactly if every row checks out; `AuditVerify` says which rows do |
| AuditVerify.VerifiesExactly | crates/core/src/infrastructure/repository/audit_log_repository.rs:419-511 | A table verifies if and only if its first row names the genesis hash, each later row the record hash of its predecessor, each record hash is the digest of its row, no row is without hashes, and with a key each HMAC is the key's MAC of the record hash |
| AuditVerify.ErrorsExactly | crates/core/src/infrastructure/repository/audit_log_repository.rs:441-506 | Which of the five errors a row gives, if and only if, in the order of the checks |
| AuditVerify.ForgedHmacIsReported | crates/core/src/infrastructure/repository/audit_log_repository.rs:497-506 | Replacing one HMAC of a verifying keyed table is reported as a bad HMAC of that row |
| AuditVerify.AlteredRowIsReported | crates/core/src/infrastructure/repository/audit_log_repository.rs:475-494 | Altering one row so that its digest changes is reported as a bad record hash of that row |
| AuditVerify.RemovedRowIsReported | crates/core/src/infrastructure/repository/audit_log_repository.rs:465-474 | Taking out an inner row breaks the chain at the next row, unless the row before has the same record hash |
| AuditVerify.RowAsWritten | crates/core/src/infrastructure/repository/audit_log_repository.rs:318-396 | What each row of a table the server wrote holds: predecessor, digest of its own text, MAC; nothing in flushed rows |
| AuditVerify.TextIsWrittenOut | crates/core/src/infrastructure/repository/audit_log_repository.rs:554-600 | The hashed text: the hash before, then time, actor, action, target, outcome and details, each after a colon |
| AuditChain.FirstFlushedRowIsReported | crates/core/src/infrastructure/repository/audit_log_repository.rs:441-456 | The first flushed row is the first error: a legacy row if it is the oldest, a broken chain otherwise |
| AuditChain.ChainVerifiesExactlyWithoutFlushes | crates/core/src/infrastructure/repository/audit_log_repository.rs:419-511 | A table the server wrote verifies if and only if it holds no flushed row |
| AuditChain.RunVerifiesUntilFirstFlush | crates/server/src/audit_recorder.rs:696-710 | In every run of the recorder the log verifies if and only if no batch has committed |
| AuditChain.LastHashFixesTable | crates/core/src/infrastructure/repository/audit_log_repository.rs:419-511 | For every digest, two verifying tables with the same last hash agree row by row, or hold two rows whose digests collide or a row whose digest is the genesis hash |
| AuditText.TextFixesExactly | crates/core/src/infrastructure/repository/audit_log_repository.rs:554-600 | No other row with a timestamp of that length shares the text if and only if actor, action and target hold no colon and no piece of the details but the last is an outcome |
| AuditText.SameTextExactly | crates/core/src/infrastructure/repository/audit_log_repository.rs:554-600 | Rows with timestamps of one length share the text if and only if the timestamps are equal and the other fields, cut at colons, give the same pieces |
| AuditText.TextFixesPlainRows | crates/core/src/infrastructure/repository/audit_log_repository.rs:554-600 | Two rows with the same text and no colon in actor, action and target have the same fields |
| AuditText.ColonsMakeTextAmbiguous | crates/core/src/infrastructure/repository/audit_log_repository.rs:554-600 | With colons, two different rows have the same hashed text |
| RollbackDisk.FileSystem.WriteAll | crates/cli/src/commands/rollback.rs:224-225 | The file holds the bytes, unsynced; a failing write leaves some of them |
| RollbackDisk.FileSystem.SyncAll | crates/cli/src/commands/rollback.rs:226-227 | The file's bytes survive a crash from here on |
| RollbackDisk.FileSystem.Rename | crates/cli/src/commands/rollback.rs:229-230 | Replaces a file in one step; a directory is not replaced |
| Rollback.FindBackupFor | crates/cli/src/commands/rollback.rs:131-189 | The target is current, or the backup listed first in a stable newest-first order, or the error of the check that failed |
| Rollback.LoadBackup | crates/cli/src/commands/rollback.rs:191-214 | The literal backup, or through its pointer the bytes in the content store, which opening may create |
| Rollback.WriteSyncRename | crates/cli/src/commands/rollback.rs:221-232 | Every state the disk passes through: temporary file created, written, synced, renamed |
| Rollback.ReplaceTarget | crates/cli/src/commands/rollback.rs:215-232 | The same after making the parent directory if it is gone |
| Rollback.RestoreOne | crates/cli/src/commands/rollback.rs:131-234 | Outcome, final disk and every state in between of one entry are those of `Restore` |
| Rollback.RestoreAll | crates/cli/src/commands/rollback.rs:91-110 | The loop over the entries: summary, final disk and every state in between |
| Rollback.RollbackAt | crates/cli/src/commands/rollback.rs:73-123 | An unknown operation or other effect changes nothing; otherwise all entries are tried, and the row is flipped exactly when none failed and it is prepared, writing or committed; a refused flip is an error after the files were restored; a committed operation whose entries all succeed is marked and summed up |
| Rollback.Journal.Transition | crates/core/src/application/journal/mod.rs:330-388 | Changes the status of that row only, and only along a valid transition; which error otherwise |
| Rollback.Journal.Rollback | crates/core/src/application/journal/mod.rs:275-278 | Without a database failure a row becomes rolled back if and only if it is prepared, writing or committed |
| RollbackJournal.TransitionsExactly | crates/core/src/application/journal/mod.rs:401-421 | Which status may follow which |
| RollbackJournal.EndedOperationsStay | crates/core/src/application/journal/mod.rs:330-421 | Over every sequence of transitions an operation that was rolled back or failed never changes |
| RollbackJournal.CommittedFromCommitting | crates/core/src/application/journal/mod.rs:330-421 | Over every sequence, an operation that gets committed was committing right before a transition to that |
| RollbackJournal.WholeLifeIsOpen | crates/core/src/application/journal/mod.rs:330-421 | The path prepared, writing, committing, committed, rolled back is open to its end |
| Rollback.OutcomesAddUp | crates/cli/src/commands/rollback.rs:91-110 | The summary counts the restored, the kept and the failed entries, and they add up to the writes |
| Rollback.FailuresAreListed | crates/cli/src/commands/rollback.rs:105-108 | Every failed entry is listed with its reason |
| RollbackOutcome.FoundExactly | crates/cli/src/commands/rollback.rs:131-189 | Without failing calls: current if and only if as deployed, else a newest backup is found if and only if the target has a name, its backup directory exists and some entry matches, else which of these is missing |
| RollbackOutcome.FirstListedIsPicked | crates/cli/src/commands/rollback.rs:173-189 | Of equally new backups the first listed is picked |
| RollbackOutcome.LoadedExactly | crates/cli/src/commands/rollback.rs:191-214 | Without failing calls: a literal backup gives its own bytes, a pointer those of the object two levels down in the store, and which reason it fails for otherwise |
| RollbackOutcome.EntryEndsExactly | crates/cli/src/commands/rollback.rs:131-234 | Without failing calls: how each entry ends, if and only if, and that a restored target holds those bytes |
| RollbackOutcome.FailingCallIsReported | crates/cli/src/commands/rollback.rs:131-234 | An entry that would be restored fails for each call it comes to that fails, for that reason |
| RollbackOutcome.EntryByEntry | crates/cli/src/commands/rollback.rs:91-110 | Every entry is tried in order at its own path below the target, on the disk that the entries before it left, whether they failed or not |
| RollbackSafety.FoundIsNewest | crates/cli/src/commands/rollback.rs:160-189 | At any point of a run, the backup picked is one that no matching backup of the initial disk is newer than |
| RollbackSafety.LoadedIsContent | crates/cli/src/commands/rollback.rs:195-214 | At any point of a run, what is loaded is what that backup stood for on the initial disk, directly or through the store |
| RollbackSafety.RestoreKeepsInv | crates/cli/src/commands/rollback.rs:131-234 | Every state of an entry keeps: each target as it was or holding synced bytes of a newest backup, all else untouched, only temporary files unsynced |
| RollbackSafety.CrashSafety | crates/cli/src/commands/rollback.rs:100-110 | Stopped anywhere, with unsynced bytes arbitrary: each target holds its earlier content or all bytes of a newest backup; backups, store and all other files are unchanged; only temporary files are new |
| RollbackRerun.FailedEntryKeepsTarget | crates/cli/src/commands/rollback.rs:131-234 | A failed entry leaves its target as it was at every step |
| RollbackRerun.SuccessfulEntry | crates/cli/src/commands/rollback.rs:131-234 | Kept means the expected hash and no change; restored means the synced bytes of a newest backup |
| RollbackRerun.SuccessfulTargetsAreSettled | crates/cli/src/commands/rollback.rs:100-110 | At the end, whatever failed, each successful entry's target is at its expected hash or holds a newest backup, shared targets included |
| RollbackRerun.TempIsLeftExactly | crates/cli/src/commands/rollback.rs:221-232 | Whatever fails, an entry leaves its temporary file if and only if its reason is the write, the sync or the rename |
| RollbackRerun.DirectoryTargetLeavesTemp | crates/cli/src/commands/rollback.rs:221-232 | Without failing calls it leaves it if and only if a backup loads and the target is a directory, and the reason is then the rename |
| RollbackTwice.RunContents | crates/cli/src/commands/rollback.rs:91-110 | If no failing call made an entry fail, what each target holds at the end is a function of what it and the backups held at the start |
| RollbackTwice.SecondRunChangesNothing | crates/cli/src/commands/rollback.rs:91-110 | After such a run, repeating the restore loop with the same listings, whatever calls fail in it, changes the bytes of no file but temporary ones |
| RollbackTwice.RolledBackIsFinal | crates/cli/src/commands/rollback.rs:91-123 | So it is after a run in which no entry failed, which is one that marks the operation |
| RollbackBackups.TakesExactly | crates/cli/src/commands/rollback.rs:160-172 | A backup as a deployment names it (`deploy/mod.rs:338-357, 365-412`) matches a target if and only if it is the target's own, its file's name extends the target's and a dot, or the target's name is that file's with the backup's stamp |
| RollbackBackups.OnlyOwnBackupsExactly | crates/cli/src/commands/rollback.rs:160-172 | A target matches only its own backups if and only if no other file with a backup beside it has such a name |
| RollbackBackups.PickedBackupIsOwn | crates/cli/src/commands/rollback.rs:160-189 | Then the backup picked was made for the target and for no other file |
| RollbackBackups.ForeignBackupIsPicked | crates/cli/src/commands/rollback.rs:160-189 | Otherwise the other file's backup is picked whenever it is newer than all others that match |
| RollbackBackups.OwnIsPickedExactly | crates/cli/src/commands/rollback.rs:160-189 | Whatever the modification times and the listings, only own backups are picked if and only if no other file with a backup beside the target has such a name |
| McpScalar.YamlQuote | crates/hermes-adapter/src/mcp_server.rs:226-249 | The loop produces the quoted form of the whole string |
| McpScalar.EscapesExactly | crates/hermes-adapter/src/mcp_server.rs:230-245 | The six short escapes, two lower-case hexadecimal digits for the other control characters, nothing for the rest |
| McpScalar.ScalarRoundTrip | crates/hermes-adapter/src/mcp_server.rs:226-249 | Decoding a quoted string as a double-quoted YAML scalar gives it back, for every string |
| McpScalar.QuotedIsSelfDelimiting | crates/hermes-adapter/src/mcp_server.rs:208-225 | No raw control character, and the last character is the first unescaped quote after the opening one, whatever follows |
| McpScalar.ValidNameIsUnescaped | crates/hermes-adapter/src/mcp_server.rs:180-185 | A name that passes validation is quoted without escapes |
| McpManifest.RenderManifestYaml | crates/hermes-adapter/src/mcp_server.rs:167-207 | The pushes produce the text of the manifest's lines, in order |
| McpReader.PrintedLinesAreRead | crates/hermes-adapter/src/mcp_server.rs:167-207 | The reader recovers the entries of any printed well-formed lines |
| McpReader.RenderedIsRead | crates/hermes-adapter/src/mcp_server.rs:167-249 | However a reader reads quoted scalars, it reads from a rendered manifest the specification with each string as its quoted form is read |
| McpReader.ManifestRoundTrip | crates/hermes-adapter/src/mcp_server.rs:167-249 | Reading a rendered manifest gives back exactly its specification, over all strings and all auth shapes |
| McpReader.RenderingIsInjective | crates/hermes-adapter/src/mcp_server.rs:167-249 | Different specifications render differently |
| McpReader.LineCountDependsOnAuthShape | crates/hermes-adapter/src/mcp_server.rs:167-207 | A manifest has 12, 15 or 16 lines, by the shape of its auth part: no string adds a line |
| McpFolding.QuotedIsRead | crates/hermes-adapter/src/mcp_server.rs:226-249 | Decoding a quoted string under the folding rules of YAML 1.1 undoes the escapes and folds the blanks and breaks left raw |
| McpFolding.RefusedExactly | crates/hermes-adapter/src/mcp_server.rs:226-249 | It is refused if and only if a line of it begins with a document marker |
| McpFolding.ComesBackExactly | crates/hermes-adapter/src/mcp_server.rs:226-249 | It comes back unchanged if and only if it holds no next line, no space beside a separator and no document marker after one |
| McpYaml11.RenderedIsFolded | crates/hermes-adapter/src/mcp_server.rs:167-249 | A YAML 1.1 reader refuses a manifest with a character that YAML 1.1 does not allow, and otherwise reads each string folded |
| McpYaml11.RoundTripExactly11 | crates/hermes-adapter/src/mcp_server.rs:167-249 | It gives the specification back if and only if every string is printable and comes back, and refuses the manifest if and only if one is not printable or holds such a marker |
| McpYaml11.NextLineIsLost | crates/hermes-adapter/src/mcp_server.rs:226-249 | A description with a next line between two letters is read with a space there and no error |
| Slugs.NameChecksMatchPattern | crates/hermes-adapter/src/mcp_server.rs:112-124 | The byte-wise name check and the character-wise slug check (`router_plugin.rs:303-312`) accept exactly ^[a-z][a-z0-9_-]{0,63}$ |
| GitTreeWalk.WalkTree | crates/core/src/infrastructure/git_fetcher.rs:432-463 | Adds the number of blobs, the depth and the largest blob of the tree to the walk, or fails exactly at a missing object |
| GitTreeWalk.NoNestIsDeeper | crates/core/src/infrastructure/git_fetcher.rs:438-446 | No chain of nested directories is longer than the depth measured |
| GitTreeWalk.SomeNestIsAsDeep | crates/core/src/infrastructure/git_fetcher.rs:438-446 | Some chain is as long |
| GitTreeWalk.LargestIsLargest | crates/core/src/infrastructure/git_fetcher.rs:448-455 | The largest blob is one of them and none is larger |
| GitTreeWalk.BlobsAreThere | crates/core/src/infrastructure/git_fetcher.rs:432-463 | The blobs counted are those at all places of the tree where a blob lies, each place once, with their sizes |
| GitQuotas.DirSize | crates/core/src/infrastructure/git_fetcher.rs:275-289 | The saturating total of the readable regular files |
| GitQuotas.DirSizeInAnyOrder | crates/core/src/infrastructure/git_fetcher.rs:275-289 | In any order of the walk the total is the true size of the tree, capped at 2^64 - 1 |
| GitQuotas.CountPacked | crates/core/src/infrastructure/git_fetcher.rs:325-354 | The saturating sum of the pack indexes' counts, unless one cannot be read or is truncated |
| GitQuotas.ObjectCount | crates/core/src/infrastructure/git_fetcher.rs:307-382 | All packed and loose objects, saturating; zero without an objects directory; fails exactly if the packs cannot be counted |
| GitQuotas.FanoutIsRead | crates/core/src/infrastructure/git_fetcher.rs:333-353 | An index whose fan-out table ends in a number is counted as that many |
| GitQuotas.LooseExactly | crates/core/src/infrastructure/git_fetcher.rs:355-382 | A directory counts its files if its name is two hexadecimal digits and it can be listed, and nothing otherwise |
| GitQuotas.PackedExactly | crates/core/src/infrastructure/git_fetcher.rs:325-354 | An index counts the big-endian number at bytes 1028 to 1031; it stops the count if it is shorter or cannot be read |
| GitQuotas.IndexesAreThose | crates/core/src/infrastructure/git_fetcher.rs:333-340 | An index is a name with something before .idx |
| GitQuotas.WalkHeadTree | crates/core/src/infrastructure/git_fetcher.rs:401-430 | The measures of the whole HEAD tree, or none if any of it cannot be reached |
| GitQuotas.Clone.CheckRepoQuotas | crates/core/src/infrastructure/git_fetcher.rs:183-265 | Accepts exactly a clone that is no repository or is within all five caps; otherwise names the first breach in order and has the clone removed |
| GitQuotas.FirstBreachIsUnique | crates/core/src/infrastructure/git_fetcher.rs:183-265 | Only one answer fits a breach, and none fits a clone within its caps |
| Health.Diff | crates/hermes-adapter/src/hermes_adapter.rs:62-92 | The two loops produce one verdict per observed file, then one per recorded file not seen, each right by the two maps |
| Health.Report | crates/hermes-adapter/src/hermes_adapter.rs:62-108 | Every observed or recorded target once, strictly increasing: modified if and only if recorded and read with another hash, foreign if and only if read and not recorded, missing if and only if recorded and not read, an error if and only if unreadable and not recorded; ok exactly if all are current |
| Health.DifferencesAreReported | crates/hermes-adapter/src/hermes_adapter.rs:62-108 | The modified, foreign and missing targets are together exactly those on which what was found and the baseline disagree |
| Health.OkMeansEqual | crates/hermes-adapter/src/hermes_adapter.rs:98-100 | All current exactly when the observed map equals the baseline |
| HealthWalk.CollectFiles | crates/hermes-adapter/src/hermes_adapter.rs:113-141 | Puts every regular file of the tree into the map, unreadable ones without a hash; fails exactly at a listing or entry that cannot be read |
| HealthWalk.CheckHealth | crates/hermes-adapter/src/hermes_adapter.rs:45-109 | The whole check: the report over what the walk finds, nothing found if the directory is gone, each artifact right by the two maps; ok exactly if what is found equals the baseline |
| HealthWalk.TargetsCollideExactly | crates/hermes-adapter/src/hermes_adapter.rs:130-133 | Two paths of Unix names have the same target if and only if cutting their names at backslashes gives the same pieces |
| HealthWalk.RelIsInjective | crates/hermes-adapter/src/hermes_adapter.rs:130-133 | Paths without backslashes have the same target only if they are the same |
| HealthWalk.FoundIsTheTree | crates/hermes-adapter/src/hermes_adapter.rs:113-141 | The map is the tree: where no other file shares its target each path has there what the tree has, a regular file its hash, and every key is the target of a file |
| HealthWalk.NoFileIsLostExactly | crates/hermes-adapter/src/hermes_adapter.rs:113-141 | A tree loses no file to another if and only if no two of its files have paths with the same pieces between slashes and backslashes |
| HealthWalk.EveryFileIsFound | crates/hermes-adapter/src/hermes_adapter.rs:113-141 | Then every file is in the map with its own hash |
| Sorting.SortIsStable | crates/hermes-adapter/src/router_plugin.rs:139-141 | Sorting by slug keeps agents with the same slug in their order |
| RouterPlugin.BuildManifestYaml | crates/hermes-adapter/src/router_plugin.rs:169-221 | The loop over the sorted agents produces the manifest text |
| RouterPlugin.BuildEntryPointMd | crates/hermes-adapter/src/router_plugin.rs:223-258 | The pushes and the loop over the tools produce the text of SKILL.md |
| RouterText.ManifestSays | crates/hermes-adapter/src/router_plugin.rs:169-221 | Each input stands in a line of its own under its key, then the agents, one line each in sorted order, then text that depends on no input |
| RouterText.EntrySays | crates/hermes-adapter/src/router_plugin.rs:223-258 | SKILL.md has the name as its title, the description, the tools in order, and the source, the commit and the number of agents in lines of their own |
| RouterText.ScalarIsRead | crates/hermes-adapter/src/router_plugin.rs:260-296 | A scalar is bare exactly if not empty, without special characters and without outer spaces; bare or quoted, it reads back as the string |
| RouterText.FilesLieThere | crates/hermes-adapter/src/router_plugin.rs:125-163 | The manifest, SKILL.md, for each slug the body of the last agent with it, and every other file as it was |
| RouterText.LayoutIsThat | crates/hermes-adapter/src/router_plugin.rs:135-163 | The layout has the skill paths in sorted order, the commit, the hash of the manifest and that of slugs and bodies line by line |
| RouterPlugin.MaterializeRouterPlugin | crates/hermes-adapter/src/router_plugin.rs:75-163 | Refuses exactly unsafe ids, no agents or unsafe slugs, naming the first and writing nothing; otherwise the manifest, SKILL.md and the skill files in sorted order are what is written, and the layout has their paths and hashes |
| RouterPlugin.PluginDir.WriteSkills | crates/hermes-adapter/src/router_plugin.rs:135-151 | One file per agent in that order, the text hashed and the paths reported |
| RouterPlugin.ManifestForgetsOrder | crates/hermes-adapter/src/router_plugin.rs:208-214 | Reordering the agents never changes the manifest or SKILL.md, even if slugs repeat |
| RouterPlugin.OrderIsForgottenExactly | crates/hermes-adapter/src/router_plugin.rs:136-151 | Reordering never changes skill files or hash input exactly when agents with the same slug have the same body |
| RouterHash.SameInputExactly | crates/hermes-adapter/src/router_plugin.rs:136-151 | Two lists of agents hash alike if and only if their slugs and the lines of their bodies run together to the same lines |
| RouterHash.HashInputFixesExactly | crates/hermes-adapter/src/router_plugin.rs:136-151 | The text hashed fixes the agents, among all sorted agents with safe slugs, if and only if there is none, or one whose body has no inner line that could be the slug of a next one |
| SessionCookie.ParseExactly | crates/server/src/session_cookie.rs:168-182 | Over all cookie strings of RFC 6265: the first agency_session value, or nothing if an earlier name only begins so |
| SessionCookie.SessionIsFound | crates/server/src/session_cookie.rs:168-182 | The value is found wherever it stands if no earlier name begins with agency_session |
| SessionCookie.BlanksDoNotMatter | crates/server/src/session_cookie.rs:168-182 | Any spaces and tabs around the pairs give the same result |
| SessionCookie.ShadowedSessionIsLost | crates/server/src/session_cookie.rs:172-180 | A cookie string whose session cookie is not found |
| SessionCookie.SetCookieRoundTrip | crates/server/src/session_cookie.rs:120-129 | What a client keeps of the Set-Cookie header gives the session id back |
| SessionCookie.HeaderSaysExactly | crates/server/src/session_cookie.rs:120-129 | Cut at semicolons, the header is the pair, HttpOnly, SameSite=Strict, Path=/, Max-Age=3600 and, if asked for, Secure |

## Left out

- Rounding of f64: tokens, seconds and rates are reals; a clock never runs backwards. The statements about retry advice take rates from zero up.
- Idempotency requests: a failed finalise leaves the row as it was; reading the clock and looking the row up happen at one instant in the step system; the response headers of a handler are not modelled.
- IdempotencyReplay.ReplaysAreFaithful: a body that is not valid UTF-8 is replayed as its lossy conversion, which the model takes as given.
- Audit recorder: Prometheus counters; the commit of a batch is one step; a fallback row is stamped with the time of its insert, not of its event, as in the code.
- AuditChain.VerifyChain: of the data an error carries only its kind and the row's id are modelled.
- AuditChain.LastHashFixesTable: a row's contents are its id, its predecessor's hash and the hashed text; how far the text fixes the fields is stated in `AuditText`. Digests are 64 characters long, as those of SHA-256 in hexadecimal are.
- Rollback: paths are lists of component names, without links, `..` or case folding; a failing directory creation creates nothing; the parser of backup pointers is a parameter that gives the hash a pointer refers to.
- RollbackSafety.CrashSafety: assumes what a caller can check: everything synced at the start, no target among the backups or in the content store, temporary names not taken, and a content store that is not inside a `.backups` directory. Directory entries reach the disk in the order they were made; a crash that loses the latest ones is a crash at an earlier state.
- RollbackTwice.SecondRunChangesNothing: the second run lists the backup directories as the first did, and no file of either run stands where the content store's own directories are; leftover temporary files may differ.
- RollbackBackups.TakesExactly: timestamps and random parts of backup names hold no dot, as digits and the first characters of a UUID do not.
- MCP manifests: writing the file to disk; reading YAML beyond comments and two-level mappings of one-line scalars.
- McpYaml11.RoundTripExactly11: the reader takes lines that end in a line feed, as all printed ones do, and refuses other breaks outside quoted strings where YAML 1.1 would end a line.
- Git quotas: the parsing of overrides from the environment, the fetch timeout, libgit2's own errors beyond a missing object, and counts beyond 64 bits in the tree walk.
- Health: names that are not Unicode, which are converted with loss; the probe and verify commands.
- Router plugin: safe-path resolution; failing writes; reading the manifest beyond its scalars and lines, which an input with line feeds can continue.
- Session cookies: clearing the cookie; headers that are no cookie strings are parsed but only characterised through their parts.
- Middleware order, role checks, OIDC, tokens and the vault: each request is allowed or refused by one check, or its bytes are handed to a cryptographic library.
- Deployment approval: the statuses of pending deployments, each changed by a guarded update of its row.
- The deployment, planning and composition services, the scanner, safe-path resolution and the user interfaces: what they write is what a rollback or a health check starts from, which the model takes as given.
