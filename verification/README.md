# Verified model of the club server's synchronisation engine

This project models the server of a sports-club application in Dafny and proves properties of it: the offline-sync protocol with its
change log, the attendance actions on the same store, the spreadsheet imports, the WebSocket hub and the avatar import. Everything is
verified together by `dafny verify dfyconfig.toml`.

## What is modelled

- **Records and tables.** The ten synchronised entities exist twice: as JSON payloads (times and dates are text) and as table rows (times
  at microsecond precision, dates as values). One map holds the ten tables; `Write` is the pair of statements every writer uses, an
  upsert by id and a row in `sync_change_log`, with foreign keys and unique indexes checked as PostgreSQL does (`Records`, `Tables`,
  `Lookups`). A client's `deletedAt` and `createdAt` are kept as the code keeps them.
- **Push, Pull and Rebase.** `Authorization`, `Canonical`, `Push` and `Pull` say what a request computes; `SyncStore` and `SyncService` are
  the mutable objects with the source's loops, proved equal to it. `AccessRules` says as relations whom a record belongs to and who may
  read it, `PushOutcomes` when a mutation is applied and when it gets which conflict, both without the functions that compute it; `Rebase`
  holds the filtered lists. A transaction is a saved copy that a rollback restores.
- **Attendance.** `Attendance` specifies the seven actions, including that a reported conflict does not undo earlier writes of the same
  action; `AttendanceService` is the service with its loops; `AttendanceResults` says what performed
  actions do, `AttendanceConflicts` and `AttendanceOutcomes` how each
  action ends, and what a refused one leaves; `Sample` builds the small reachable state on which the
  examples there run.
- **Other writers.** `Schedule` (replacing a student's schedule) with `ScheduleExact`, `Expected` and `CreateSession` (creating a session for the expected
  students), `Imports` (clubs, belt ranks, students) with `ImportOutcomes`.
- **Runs.** `History` has the invariant of serial runs; `Server` shows that any sequence of requests is such a run. `Commits` drops
  seriality: transactions overlap, and a reader pulls in between.
- **Hub and avatars.** `Hub` is a system of interleaved steps over a lock and bounded channels. `Avatar` is a service over tables and
  object storage in which every operation may fail at any point, and which remembers whether one has.
- **Text.** `UtcText` prints and parses UTC times and settles how text order relates to time order.

What comes from outside is a parameter: `Env` holds time parsing and formatting, name normalization, the order in which unordered rows
and map keys are visited, and the user ids; `Caller` holds the answers of the permission service. `ValidEnv` states what is assumed
of formatting and listing, and `UtcTextProofs.UtcEnvIsValid` shows that UTC texts meet it. The clubs a caller is a member of are a
parameter of `Rebase`. New ids and faults of storage are parameters or
arbitrary choices.

## False as one would expect them, and what holds instead

- A filtered Pull can lose readable rows: `PullOnce` says exactly when, `FilteredPullLosesRow` gives the smallest case, and
  `ExactChainComplete` proves the repaired loop complete.
- Overlapping transactions can hide a committed row from a reader for good: `MissesNothingIffAhead` says exactly when for a given
  reader, `OrderedCommitsExactly` which writers are safe from every reader, `OverlapLosesRow` gives a trace.
- The stale-write test compares texts: `StaleTestExact` says exactly when it is wrong.
- A delete under the status draft sidesteps the reopen rule: `ReopenRuleExactly` says
  exactly when, `DeleteAsDraftAccepted` that it happens. Without such deletes the rule holds over whole runs (`ReopenedOnlyOnItsDate`).
- Log and tables agree only up to `created_at`: `CreatedAtAgreesExactly` says when they agree on that too, `CreatedAtMayDiffer` gives a case
  where they do not.
- A reported conflict need not mean that nothing changed. A non-blank record note is stored and then refused: `NonBlankNoteOutcome` says
  exactly when, `NoteKeptThoughRefused` gives a case. The same holds of `create_session` (`CreationOutcome`, `SessionKeptThoughRefused`) and
  `delete_session` (`DeleteOutcome`, `DeleteStopsHalfway`), and a cleared note stays cleared when its mirror message cannot be removed
  (`BlankNoteOutcome`).
- A second live session for one date can be created: `SecondSession` says exactly when, `SecondSessionSlipsIn` gives a case, and
  `OneSessionKept` says when uniqueness is kept.
- A replaced schedule need not leave the requested weekdays live if ids are not the server's own: `ReplacedExactly` says exactly when it
  does, `HiddenDaySurvives` gives a case where it does not.
- A student import can write a student and report the row: `ImportRowOutcome` says exactly when, `StudentKeptThoughReported` gives a case.
- Seventeen broadcasts between a client's registration and its first send make the send panic: `RegisterOutcome`, `SeventeenPanics`.
- Batch counters need not sum to the total after a failed insertion: `CountersSum`, `PartialBatchDoesNotAddUp`.

## Model

| member | source | states |
|---|---|---|
| Server.EveryRunReplays | internal/postgres/store.go:1096-1198 | after any sequence of requests (Push, attendance actions, the three imports, session creation, failed calls) a client that applied the whole change log holds exactly the live tables, on every column but created_at; every log row resolves to an existing club or to everyone; the log stands in cursor order |
| Server.ReopenedOnlyOnItsDate | internal/sync/service.go:913-926 | in a run without draft deletes, a session that was completed at one request and is not at a later one was reopened by a write whose UTC date is the session date stored just before it |
| Server.ServerRunsAreSerial | internal/sync/service.go:44-50 | every run of the server, whatever its requests, is a serial run of vetted writes |
| Server.ServingEvolves | internal/sync/service.go:35-167 | each kind of request that succeeds is one transaction of vetted writes, orderly ones unless a Push deletes a session as draft |
| History.ReplayEqualsRebase | internal/sync/service.go:394-464 | replay equals rebase in every reachable state: the fold of the log is the set of live rows, equal in every column but created_at |
| History.FoldMatchesRebase | internal/sync/service.go:394-464 | for a caller who is shown everything Rebase answers with exactly the live rows, each as it is stored, created_at included; what a client folds from the log has the same ids and agrees on every column but created_at |
| RebaseModel.RebaseService.Rebase | internal/sync/service.go:394-464 | each of the ten lists holds what the caller is shown of its table, each row once and as stored: everything live for an administrator; for anyone else belt ranks, the clubs they are members of, what names one of these clubs, the schedules of shown students, and the attendance of shown sessions or students |
| RebaseModel.RebaseService.FilterAll | internal/sync/service.go:408-449 | the filters in their order, the later ones over the ids of the students and sessions kept before |
| RebaseModel.RebaseService.FilterRecords | internal/sync/service.go:537-545 | the filter loop keeps exactly the records the test accepts, in order |
| RebaseModel.RebaseService.ListAllCurrent | internal/postgres/store.go:1096-1198 | ten lists of all live rows |
| RebaseModel.RebaseIsTables | internal/sync/service.go:394-464 | in every reachable state an administrator's lists and the replayed log have the same ids, and the same rows up to created_at |
| History.FoldMirrorsReplay | internal/postgres/store.go:2497-2517 | for any log of storable payloads, the client's fold and the tables rebuilt from the log agree |
| History.CreatedAtAgreesExactly | internal/postgres/store.go:2082-2092 | a client knows a live row's creation time exactly if the last payload logged for it says the same as the first |
| History.CreatedAtMayDiffer | internal/postgres/store.go:2082-2092 | created_at really can differ between log and table: a concrete pair of upserts |
| History.WriteKeepsInvariant | internal/postgres/store.go:68-115 | any vetted write keeps log order, replay, references, indexes, names and distinct group names together |
| History.SerialRunsKeepInvariant | internal/postgres/store.go:68-309 | every state of every serial run satisfies the invariant, and its log holds nothing later than the next transaction |
| History.LiveValuesUnique | internal/postgres/schema.go:50-92 | in every reachable state live club codes, group names after normalization, club weekdays, rank orders, student codes, profiles, student weekdays, session-student pairs and the note about a record are unique |
| History.OrderlyRunsFollowReopenRule | internal/sync/service.go:913-926 | in every orderly serial run each session write of the whole log followed the reopen rule on the tables as they were before it |
| History.ReopenedOnItsOwnDate | internal/sync/service.go:1039-1048 | given such a history, a change from completed to not completed happened at a log row whose UTC date is the stored session date |
| ScopeTotality.LogScopesResolve | internal/sync/authorization.go:62-101 | scope totality: in a reachable state every log row, however old, resolves, and to a club that is stored |
| ScopeTotality.ReferencedScopeResolves | internal/sync/authorization.go:205-280 | a payload whose references hold leads to a non-empty club that exists, through student or session links |
| AccessRules.ScopeExactly | internal/sync/authorization.go:16-60 | the scope a mutation is checked against is everyone for a belt rank, the club itself for a club, and otherwise the club its payload, or without one the stored row, leads to |
| AccessRules.StoredScopeExactly | internal/sync/authorization.go:62-101 | the scope of a log row is the club its record belongs to, through its own club, its student or its session |
| AccessRules.PermissionsExactly | internal/sync/service.go:302-325 | for each permission, the entities whose writes and whose reads need it |
| Records.ReadBackRoundTrip | internal/postgres/store.go:2574-2626 | a row rendered as a payload and stored again is the same row |
| Records.ColumnsRoundTrip | internal/postgres/store.go:2070-2495 | the same for the columns of each of the ten entities, optional dates and times included |
| Tables.WriteAllEffect | internal/postgres/store.go:117-309 | a batch appends exactly its records to the log with consecutive ids and touches no row outside its keys |
| Tables.WriteAllRows | internal/postgres/store.go:2082-2092 | a record that no other of its batch contradicts ends stored, with created_at surviving from an earlier row |
| Tables.WriteAllAppend | internal/postgres/store.go:117-205 | two batches one after the other equal one batch of their concatenation |
| Tables.WriteAllPrefix | internal/postgres/store.go:207-309 | a batch that succeeds succeeds on every prefix |
| SyncStoreModel.SyncStore.Begin | internal/postgres/store.go:32-34 | saves the state a rollback returns to |
| SyncStoreModel.SyncStore.Rollback | internal/sync/service.go:44-48 | everything returns to the state at Begin except the change-id sequence |
| SyncStoreModel.SyncStore.Commit | internal/sync/service.go:158-160 | a transaction with a failed statement cannot commit |
| SyncStoreModel.SyncStore.UpsertRecord | internal/postgres/store.go:68-115 | one upsert and one log row, or nothing; a constraint violation aborts the transaction, an unsendable payload does not |
| SyncStoreModel.SyncStore.UpsertBatch | internal/postgres/store.go:117-309 | the batch loop writes all records in order or fails |
| SyncStoreModel.SyncStore.IsMutationProcessed | internal/postgres/store.go:381-395 | looks up the device and mutation pair |
| SyncStoreModel.SyncStore.GetRecordForUpdate | internal/postgres/store.go:36-66 | finds the row, soft-deleted or not; an unknown entity is an error |
| SyncStoreModel.SyncStore.SaveProcessedMutation | internal/postgres/store.go:397-436 | adds the device and mutation pair |
| SyncStoreModel.SyncStore.InsertAuditLog | internal/postgres/store.go:349-379 | appends one audit row |
| SyncStoreModel.SyncStore.NextStudentCode | internal/postgres/store.go:992-1007 | advances the counter by one and prints the code for it |
| SyncStoreModel.SyncStore.ListChangesSince | internal/postgres/store.go:311-347 | the rows after the cursor in (server_modified_at, change_id) order, at most the limit |
| SyncStoreModel.SyncStore.ReadSchedules | internal/postgres/store.go:761-802 | the map of stored rows by weekday, a later row displacing an earlier one |
| SyncStoreModel.SyncStore.WriteDays | internal/postgres/store.go:804-843 | writes the requested weekdays in order and collects them |
| SyncStoreModel.SyncStore.DropDays | internal/postgres/store.go:845-872 | writes a tombstone for each stored weekday that was not requested |
| SyncStoreModel.SyncStore.ReplaceStudentSchedule | internal/postgres/store.go:715-875 | the method equals the specification function ReplaceSchedule, error for error |
| SyncServiceModel.SyncService.Push | internal/sync/service.go:35-167 | the loop with its growing answer lists equals PushAll; an error leaves only used-up change ids |
| SyncServiceModel.SyncService.PushMutation | internal/sync/service.go:59-148 | one round equals PushOne: processed check, authorization, stale test, canonicalization, write, bookkeeping |
| SyncServiceModel.SyncService.CanonicalizeMutation | internal/sync/service.go:562-1004 | equals Canonicalize and moves the code counter even when the student is then refused |
| PushProofs.PushOneEffect | internal/sync/service.go:60-148 | what one mutation does by outcome: applied, conflict or already processed; a conflict changes nothing but possibly the code counter |
| PushOutcomes.PushOutcome | internal/sync/service.go:60-148 | the answer to every mutation by what the database holds before it: an error if it is incomplete, already processed if this device has sent it, an error if its entity is unknown or it belongs to no club; then, in this order, no permission, stale write, undecodable, missing fields, reserved kind, late reopening, dead references, bad code, taken value, unsendable or refused by the database; and otherwise applied, with the row, log row, audit row, processed pair and counter spelled out |
| PushOutcomes.VerdictExactly | internal/sync/service.go:568-1000 | the verdict on a payload, condition by condition and in order, for all ten entities |
| PushOutcomes.AcceptedIsWritten | internal/postgres/store.go:68-115 | an accepted payload is stored exactly if its texts can be sent, its unchecked references are stored and its unchecked unique values are free |
| PushOutcomes.RequestAnswered | internal/sync/service.go:59-148 | in a request that does not fail each mutation gets the answer that fits the database after the mutations before it |
| PushOutcomes.AnswerComplete | internal/sync/service.go:52-57 | the answer lists exactly the applied records and exactly the conflicts with their reasons, and together with the already processed ones they account for the request |
| PushProofs.PushAccounting | internal/sync/service.go:59-148 | log, audit log and processed set grow by exactly the applied mutations, in order |
| PushProofs.PushLogs | internal/postgres/store.go:2497-2517 | the log rows of a request are its applied payloads at the server time with consecutive ids |
| PushProofs.PushAtMostOnce | internal/postgres/store.go:381-436 | no mutation id is applied twice, within a request or after having been processed |
| PushProofs.ProcessedRequestIsNoOp | internal/sync/service.go:60-72 | a request of processed mutations changes nothing, whatever its order and repetitions |
| PushProofs.RetryIsNoOp | internal/sync/service.go:60-72 | re-sending a request that had no conflicts, reordered or with duplicates, at any later time, is a no-op |
| PushProofs.PushOncePerRecord | internal/sync/service.go:93-104 | if the client times precede the server time, each record changes at most once per request |
| PushProofs.PushEvolves | internal/sync/service.go:35-167 | a request is one transaction of vetted writes, orderly unless it deletes a session as draft |
| PushProofs.PushPrefix | internal/sync/service.go:59-148 | the outcomes of a prefix of a request are a prefix of its outcomes |
| PushProofs.PushAudits | internal/sync/service.go:201-270 | the audit row of an applied mutation carries the row before and the row after it, up to created_at, and says delete, update or create according to the operation and whether a live row was there |
| PushProofs.PushAuthorized | internal/sync/authorization.go:16-60 | the scope an applied mutation was checked against is the one its log row resolves to afterwards, and the write permission was in the set the permission service gives for that club |
| PushProofs.ReopenRuleExactly | internal/sync/service.go:913-926 | an applied session mutation breaks the reopen rule exactly if it is a delete calling a completed session a draft on another date |
| PushProofs.DeleteAsDraftReopens | internal/sync/service.go:916-926 | a delete naming a completed session a draft leaves it stored as draft, whatever the date: the reopen rule is sidestepped |
| PushProofs.DeleteAsDraftAccepted | internal/sync/service.go:916-926 | and such a delete is accepted for every permitted, not stale mutation that names a live club |
| CanonicalProofs.AcceptedExactly | internal/sync/service.go:568-1000 | acceptance in terms of what must hold: valid fields, live references, free unique value, no late reopening; each refusal names a condition that failed |
| CanonicalProofs.AcceptKeepsFields | internal/sync/service.go:568-1000 | accepted fields are the client's, except a generated student code and trimmed message text |
| CanonicalProofs.CanonicalIsVetted | internal/sync/service.go:568-1000 | what is accepted satisfies the premises of the run invariant |
| CanonicalProofs.CanonicalFitsIndexes | internal/sync/service.go:608-692 | for groups, club schedules, ranks, student schedules and attendance, the check before the write means no unique index is ever tripped |
| CanonicalProofs.AcceptedAgain | internal/sync/service.go:568-1000 | an accepted record sent back is accepted unchanged but for its times, unless the server gave out a code longer than its own pattern |
| CanonicalProofs.GeneratedCodeShape | internal/sync/service.go:17-17 | a generated code matches the six-digit pattern exactly for values below 1000000 |
| CanonicalProofs.GeneratedCodesDiffer | internal/postgres/store.go:992-1007 | no two counter values give the same code |
| SyncServiceModel.SyncService.Pull | internal/sync/service.go:328-392 | the loop over pages equals PullPages; any answer holds the first of the rows the caller may read among those it moved past, up to the limit of the request or 200, in log order and nothing else; on a reachable state it is answered exactly if user, device and cursor are good, for every caller the permission service answers about, and gives an administrator every row |
| SyncServiceModel.SyncService.PullRound | internal/sync/service.go:345-384 | one page: fail, end with this answer, or go on from the next cursor |
| SyncServiceModel.SyncService.ReadPage | internal/sync/service.go:355-373 | the cursor moves over every row, readable rows are appended while there is room |
| SyncServiceModel.SyncService.CanReadStoredRecord | internal/sync/service.go:466-496 | a row is readable exactly if the caller may read it, by membership of the read permission in the set the permission service gives for the row's club; the cache stays truthful |
| AccessRules.ReadableExactly | internal/sync/service.go:466-496 | who reads what: belt ranks are for everyone, administrators read whatever belongs somewhere, anyone else needs the entity's read permission in the row's club; an error exactly if the row belongs nowhere or the permission service does not answer |
| PullProofs.AnsweredPull | internal/sync/service.go:340-391 | an answered pull delivers, for any caller, the first of the rows they may read, up to the limit |
| PullProofs.CursorRoundTrip | internal/postgres/store.go:2542-2572 | parsing inverts encoding for every time and positive 64-bit id |
| PullProofs.BareTimeSkipsNothing | internal/postgres/store.go:2542-2572 | a cursor without an id may repeat rows of its instant but never skips one |
| PullProofs.CursorOrderSorts | internal/postgres/store.go:317-327 | reading in cursor order keeps exactly the rows of the log |
| PullProofs.ReachableLogSorted | internal/postgres/store.go:317-327 | in reachable states insertion order is cursor order |
| PullProofs.PullOnce | internal/sync/service.go:340-391 | for any reader: what one pull returns, that has_more false means nothing is left, and that it loses a readable row exactly if some later page overfills the answer |
| PullProofs.FilteredPullLosesRow | internal/sync/service.go:356-373 | a concrete four-row log on which a filtered reader loses a row |
| PullProofs.ReachablePull | internal/sync/service.go:340-391 | on a reachable state a pull never fails, for an administrator or a caller the permission service answers about; has_more false means the end of the log |
| PullProofs.ReaderDecides | internal/sync/service.go:466-496 | on a reachable state the read decision of such a caller is an answer for every row of the log |
| PullProofs.AdminReadsAll | internal/sync/service.go:466-496 | and an administrator may read every row of it |
| PullProofs.UnfilteredPull | internal/sync/service.go:340-391 | a reader who may read everything loses nothing in a pull |
| PullProofs.UnfilteredChain | internal/sync/service.go:340-391 | repeated pulls give such a reader the log suffix, each row once and in order |
| PullProofs.PullingEverythingMirrors | internal/sync/service.go:394-464 | pulling from the start gives exactly the live tables, up to created_at |
| PullProofs.ExactPullLossless | internal/sync/service.go:356-373 | the repaired loop, which stops at the row that fills the answer, loses nothing for any reader |
| PullProofs.ExactChainComplete | internal/sync/service.go:356-373 | repeated, it delivers exactly the readable rows of the suffix, each once and in order |
| CommitProofs.MissesNothingIffAhead | internal/sync/service.go:44-50 | over interleaved transactions and pulls: a run misses no committed row if and only if every commit showed only rows ahead of the reader's cursor |
| CommitProofs.OrderedCommitsExactly | internal/sync/service.go:44-50 | the condition the server can see: a run of writers loses nothing, however pulls are woven into it, if and only if its commits become visible in cursor order |
| CommitProofs.MissedForever | internal/postgres/store.go:317-327 | a visible row the cursor has passed undelivered is never delivered |
| CommitProofs.OrderedCommitsMissNothing | internal/postgres/store.go:317-327 | if commits become visible in cursor order, no reader misses anything, whenever it pulls |
| CommitProofs.SerialRunsMissNothing | internal/sync/service.go:158-158 | serial transactions on a clock that does not go back commit in cursor order |
| CommitProofs.DrainedReaderIsComplete | internal/sync/service.go:340-391 | a reader that misses nothing and has nothing ahead holds the visible log, each row once, in cursor order |
| CommitProofs.PullAdvances | internal/sync/service.go:345-391 | a page moves the cursor forward by the limit or to the end of the log |
| CommitProofs.OverlapLosesRow | internal/sync/service.go:44-50 | two overlapping pushes and a pull between their commits lose a row for good |
| CommitProofs.RunKeepsSound | internal/postgres/store.go:317-327 | every run keeps change ids unique and what was delivered sorted, visible and behind the cursor |
| UtcTextProofs.UtcOrder | internal/sync/service.go:93-104 | of two UTC times in order the texts are in order, unless both fall into one second and the earlier fraction is a proper beginning of the later: then they are in the opposite order |
| UtcTextProofs.SameWidthOrder | internal/sync/service.go:93-104 | with equally many fraction digits, or in different seconds, texts and instants are ordered alike |
| UtcTextProofs.TrimmedFractionsMislead | internal/sync/service.go:93-104 | half a second past midnight sorts before midnight |
| UtcTextProofs.StaleTestExact | internal/sync/service.go:93-104 | exactly when the stale-write test finds a client time stale, in terms of instants and fraction digits |
| UtcTextProofs.DateOrder | internal/sync/student_import.go:403-406 | YYYY-MM-DD texts compare as the dates do |
| UtcTextProofs.ImportDateOrder | internal/sync/student_import.go:475-491 | dates read from cells, with dashes or slashes, compare as texts exactly as they do as dates |
| UtcTextProofs.DateOfText | internal/sync/service.go:1039-1048 | the first ten characters of a server time are its UTC date |
| UtcTextProofs.UtcRoundTrip | internal/postgres/store.go:2574-2598 | printing an instant and parsing the text gives the instant |
| UtcTextProofs.UtcEnvIsValid | internal/postgres/store.go:2574-2626 | these texts meet every assumption the other results make about time formatting |
| AttendanceServiceModel.AttendanceService.PushActions | internal/sync/attendance_actions.go:47-143 | the request loop equals ActionsAll; an error leaves only used-up change ids |
| AttendanceServiceModel.AttendanceService.PushAction | internal/sync/attendance_actions.go:68-132 | one round: a conflict is reported and the loop goes on with whatever was written |
| AttendanceServiceModel.AttendanceService.Apply | internal/sync/attendance_actions.go:163-187 | the dispatch to the seven actions equals ApplyAction |
| AttendanceServiceModel.AttendanceService.ApplyCreate | internal/sync/attendance_actions.go:189-236 | create_session: checks, session write, audit, then the records |
| AttendanceServiceModel.AttendanceService.CreateTheRecords | internal/sync/attendance_actions.go:237-274 | records are canonicalized up to the first foreign one, then written as a batch |
| AttendanceServiceModel.AttendanceService.ApplyRecordStatus | internal/sync/attendance_actions.go:276-319 | set_record_status equals its specification |
| AttendanceServiceModel.AttendanceService.ApplyAllPresent | internal/sync/attendance_actions.go:321-404 | mark_all_present equals its specification; what remains of the wanted ids is a foreign-key conflict |
| AttendanceServiceModel.AttendanceService.MarkWanted | internal/sync/attendance_actions.go:340-390 | the loop that shrinks the wanted ids while it meets their records |
| AttendanceServiceModel.AttendanceService.ApplyRecordNote | internal/sync/attendance_actions.go:406-448 | set_record_note: the record, then its mirror message, then the audit row |
| AttendanceServiceModel.AttendanceService.SyncMessage | internal/sync/attendance_actions.go:894-985 | the mirror message is written or deleted, or refused |
| AttendanceServiceModel.AttendanceService.ApplySession | internal/sync/attendance_actions.go:450-528 | set_session_note and set_session_status equal their specification |
| AttendanceServiceModel.AttendanceService.ApplyDelete | internal/sync/attendance_actions.go:530-647 | delete_session: the session, its records, its messages, the audit row |
| AttendanceServiceModel.AttendanceService.DeleteRows | internal/sync/attendance_actions.go:563-640 | tombstones for listed rows, canonicalized before any is written |
| AttendanceServiceModel.AttendanceService.SaveRecord | internal/sync/attendance_actions.go:717-741 | canonicalize, then write |
| AttendanceServiceModel.AttendanceService.WriteAudit | internal/sync/attendance_actions.go:743-785 | one audit row for the action |
| AttendanceResults.ActionsEvolve | internal/sync/attendance_actions.go:47-143 | a request is one transaction of orderly writes; done actions were new and become processed |
| AttendanceResults.AtomicActions | internal/sync/attendance_actions.go:75-132 | set_record_status, mark_all_present, set_session_note and set_session_status reported as refused leave the whole store unchanged |
| AttendanceOutcomes.ActionAnswered | internal/sync/attendance_actions.go:68-187 | the answer to every action: an error if it is incomplete, done before if this device has sent it; a fresh one is refused for want of permission exactly if AttendanceWrite is not in the set of permissions of its club, and otherwise ends as the outcome of its kind says; a refusal keeps what was written, and only performed actions become processed |
| AttendanceOutcomes.SessionTargetExactly | internal/sync/attendance_actions.go:649-675 | the addressed session is found if it is stored, deleted or not, in the named club |
| AttendanceOutcomes.RecordTargetExactly | internal/sync/attendance_actions.go:677-715 | the addressed record is found if it is stored for the named session and student and its session is found |
| AttendanceOutcomes.StatusOutcome | internal/sync/attendance_actions.go:276-319 | set_record_status, exactly: on a found record and a decoded payload an error if the status is none of the six or the check-in is not a time, refused if session or student is not live or the pair is taken, performed otherwise, with the row and the audit row it leaves |
| AttendanceOutcomes.SessionOutcome | internal/sync/attendance_actions.go:450-528 | set_session_note and set_session_status, exactly: an error for an unknown status, refused for a late reopening or a dead club, performed otherwise, with the row and the audit row they leave |
| AttendanceOutcomes.MarkAllOutcome | internal/sync/attendance_actions.go:321-404 | mark_all_present, exactly: refused for an empty id, by the first wanted record that cannot be marked, or for an id outside the session; an error if the check-in is not a time; performed otherwise, with one log row for each wanted record |
| AttendanceOutcomes.BlankNoteOutcome | internal/sync/attendance_actions.go:406-448 | set_record_note with a blank note, exactly: refused as any note, then the note is cleared and the mirror message removed; if the message's student or club is not live the action is reported although the note is cleared |
| AttendanceOutcomes.CreationWrites | internal/sync/attendance_actions.go:189-274 | a performed create_session has written its session and all its records, in order and as the payload says, and one audit row |
| AttendanceOutcomes.DeleteAudited | internal/sync/attendance_actions.go:743-785 | a performed delete_session leaves one audit row, with the session as it was |
| AttendanceConflicts.CreationOutcome | internal/sync/attendance_actions.go:189-274 | create_session in terms of the tables before it: reported after writing exactly if its session is accepted and, after records that all fit, one names another session or is refused (its session or student is not live, or its pair is taken); reported without a trace exactly if an earlier check refuses the session; performed only if all records fit. What a late refusal leaves is the session, one log row and one audit row |
| AttendanceConflicts.SessionKeptThoughRefused | internal/sync/attendance_actions.go:189-274 | and that happens: on a reachable state a session whose only record is about a deleted student is stored and reported |
| AttendanceConflicts.NonBlankNoteOutcome | internal/sync/attendance_actions.go:406-448 | set_record_note with a non-blank note, by what the tables hold before it: on a found record with a valid status the note is stored and then reported as refused exactly if session and student are live and no other record has their pair; otherwise it is refused, or fails, with nothing changed |
| AttendanceConflicts.NonBlankNoteRefused | internal/sync/attendance_actions.go:406-448 | such an action is never performed |
| AttendanceConflicts.NoteKeptThoughRefused | internal/sync/attendance_actions.go:406-448 | and a note is kept though it is refused: on a reachable state with a live session, student and record |
| AttendanceResults.StatusSet | internal/sync/attendance_actions.go:276-319 | performed, it changes status and check-in of the addressed record and nothing else |
| AttendanceResults.SessionSet | internal/sync/attendance_actions.go:450-528 | performed, it changes the one field of the session and nothing else |
| AttendanceResults.MarkAllMarks | internal/sync/attendance_actions.go:321-404 | performed, exactly the listed records are present with the given check-in, and all of them belong to the session |
| AttendanceResults.DeleteCascades | internal/sync/attendance_actions.go:530-647 | performed, no record of the session and no message about it is live, its status is kept, no other row changes, and the log gets one tombstone for each affected row |
| AttendanceConflicts.DeleteOutcome | internal/sync/attendance_actions.go:530-647 | delete_session on a found session whose rows hold valid texts: it fails exactly if its payload does not decode, is reported without a trace exactly if the club is not live, is reported after writing exactly if some live message about the session belongs to a student or club that is not live, and is performed otherwise |
| AttendanceConflicts.DeleteStopsHalfway | internal/sync/attendance_actions.go:530-647 | and the partial delete happens: on a reachable state whose message belongs to a student deleted since, the session ends deleted though the action is reported |
| AttendanceResults.DeleteListedEffect | internal/postgres/store.go:640-709 | deleting listed rows leaves each with its tombstone and logs them in order |
| ScheduleProofs.ScheduleReplaced | internal/postgres/store.go:715-875 | with canonical ids it goes through: profile and requested weekdays live with creation times kept, other stored weekdays deleted, no other row changed, ids still canonical |
| ScheduleProofs.LiveDaysAreRequested | internal/postgres/store.go:804-872 | the student's live weekdays are exactly the requested ones |
| ScheduleProofs.ReplacementLogged | internal/postgres/store.go:747-872 | the log gets the profile, the requested weekdays in order, and one tombstone for each stored weekday not requested |
| ScheduleProofs.CanonicalIdsStay | internal/postgres/store.go:804-843 | if all schedule ids are canonical every student meets the premise, and a replacement keeps all ids canonical |
| ScheduleExact.ReplacedExactly | internal/postgres/store.go:715-875 | a replacement that goes through leaves exactly the requested weekdays live if and only if no live row of an unrequested weekday is displaced by a later row of that weekday, unless its id is that of a requested weekday, and no row kept for an unrequested weekday carries the id of a requested one |
| ScheduleProofs.HiddenDaySurvives | internal/postgres/store.go:777-800 | and the first condition can fail: a concrete case in which an unrequested weekday stays live |
| ScheduleProofs.ReplacementEvolves | internal/postgres/store.go:715-875 | whatever the ids, a replacement that goes through is a transaction of vetted writes |
| ExpectedStudents.AttendanceRoster.ListExpected | internal/sync/attendance_create_session.go:200-282 | the map-building loops return exactly the expected students of the list, sorted by name whenever the club has a schedule |
| ExpectedStudents.AttendanceRoster.ModesByStudent | internal/sync/attendance_create_session.go:237-244 | the map says custom exactly for students whose live profile does |
| ExpectedStudents.AttendanceRoster.DaysByStudent | internal/sync/attendance_create_session.go:246-258 | the nested map holds each student's live active days |
| ExpectedStudents.AttendanceRoster.ClubWeekdays | internal/sync/attendance_create_session.go:216-227 | the set of the club's live active weekdays |
| ExpectedStudents.AttendanceRoster.ActiveStudents | internal/postgres/store.go:1200-1249 | the live active students of the club, each once |
| ExpectedStudents.SortByName | internal/sync/attendance_create_session.go:277-279 | a permutation sorted by full name |
| ExpectedStudents.AttendanceRoster.Create | internal/sync/attendance_create_session.go:21-146 | CreateAttendanceSession: when it is let through, for whom it writes records, and the whole new state; the new session is a draft of its club and date with the trimmed notes, or none if nothing is left of them |
| ExpectedStudents.AttendanceRoster.BuildSnapshot | internal/sync/attendance_create_session.go:148-198 | the session and one record for each expected student |
| CreateSessionProofs.MayCreateExactly | internal/sync/attendance_create_session.go:21-77 | with caller, club and date in order a creation is let through if every session of the date is deleted, refused if there is one and none is deleted, and otherwise decided by the one the query lists first; without them it is refused |
| CreateSessionProofs.NewSessionStored | internal/sync/attendance_create_session.go:164-178 | the stored session: a draft of its club and date as of now, with the trimmed notes, absent if blank |
| ExpectedStudents.ExpectedRoster | internal/sync/attendance_create_session.go:200-282 | the students recorded are, each once, the active students expected on the weekday |
| CreateSessionProofs.CreationSucceeds | internal/sync/attendance_create_session.go:93-121 | with fresh ids nothing in the database can refuse the session or its records; all of it is one vetted transaction |
| CreateSessionProofs.SecondSession | internal/postgres/store.go:1372-1395 | after a creation two live sessions of its club and date exist exactly if, before it, the session the query listed first was deleted while another was live; no other club and date changes |
| CreateSessionProofs.OneSessionKept | internal/sync/attendance_create_session.go:70-76 | tables with at most one live session for each club and date stay so exactly if no live session was hidden behind a deleted one; in particular whenever no session of that date was deleted |
| CreateSessionProofs.SecondSessionSlipsIn | internal/postgres/store.go:1383-1389 | and that happens: a state on which every creation passes the checks and leaves two live sessions |
| ImportServiceModel.ImportService.ResolveUniqueClubCode | internal/sync/club_import.go:261-278 | the search ends, with the first of base, base2, base3, ... that no other live club has |
| ImportProofs.FirstUnusedFinds | internal/sync/club_import.go:261-278 | the code found is free and every earlier candidate is taken |
| ImportProofs.CandidatesDiffer | internal/sync/club_import.go:274-276 | the candidates are pairwise different |
| ImportServiceModel.ImportService.ImportClubs | internal/sync/club_import.go:77-160 | every row is written and none reported; the new state is the fold of the club writes |
| ImportProofs.ClubImportEvolves | internal/sync/club_import.go:77-138 | the write loop never fails, is a transaction of vetted writes, and logs one row for each club |
| ImportServiceModel.ImportService.ImportBeltRanks | internal/sync/belt_rank_import.go:76-160 | the loop with its counters equals ImportAllBelts; a reported row never poisons the transaction |
| ImportServiceModel.ImportService.ImportBeltRow | internal/sync/belt_rank_import.go:76-140 | one rank: order taken, not sendable, or imported; never refused by the database |
| ImportProofs.BeltImportOutcome | internal/sync/belt_rank_import.go:84-136 | a rank is left out exactly if its order is taken or does not fit the column |
| ImportProofs.BeltImportEvolves | internal/sync/belt_rank_import.go:76-140 | imported and reported rows add up, the log grows by the imported ones, and it is a transaction of vetted writes |
| ImportServiceModel.ImportService.ImportStudents | internal/sync/student_import.go:79-284 | the loop equals ImportAllStudents; an error leaves only used-up change ids |
| ImportServiceModel.ImportService.ImportStudentRow | internal/sync/student_import.go:98-257 | one row: placement, student write, schedule check, schedule replacement |
| ImportServiceModel.ImportService.PlaceRow | internal/sync/student_import.go:99-154 | club by code or name, permission asked once for each club, group, belt rank |
| ImportServiceModel.ImportService.LeavesClub | internal/sync/student_import.go:224-242 | whether a custom schedule has a day outside the club's days |
| ImportServiceModel.ParseScheduleDays | internal/sync/student_import.go:547-586 | exactly the named weekdays, each once, in order of first mention; an unknown entry is an error |
| ImportProofs.StudentImportEvolves | internal/sync/student_import.go:98-257 | an import that does not fail is one transaction of vetted writes, and every row ends imported or reported |
| ImportProofs.ImportRowOutcome | internal/sync/student_import.go:98-257 | one student row by what the tables hold before it: reported with nothing changed exactly if it cannot be placed; placed, it fails the import if its student code is taken, is reported after its student was written exactly if its code is free and its custom schedule leaves the club's days, and is not reported otherwise |
| ImportProofs.StudentWriteOutcome | internal/sync/student_import.go:156-218 | the student of a placed row can be written exactly if no other student has its code |
| ImportProofs.StudentKeptThoughReported | internal/sync/student_import.go:219-242 | and a student is written though its row is reported: on a reachable state with a club that has no schedule |
| ImportProofs.CanonicalImportSucceeds | internal/sync/student_import.go:244-246 | while all schedule ids are canonical, replacing the schedule of a written student never fails and keeps them canonical |
| ImportOutcomes.ClubRowImported | internal/sync/club_import.go:77-138 | a club row is stored with the row's fields, its creation time kept, and a code no other live club has |
| ImportOutcomes.BeltRowImported | internal/sync/belt_rank_import.go:76-140 | a rank row is reported exactly if its order is taken or does not fit, and is stored with the row's fields otherwise |
| ImportOutcomes.PlacementExactly | internal/sync/student_import.go:99-154 | a student row is placed only in a club it names by code or else by name, with the import permission in that club's set, in a group of the club and a rank it names; and when it is not placed, or the import fails, exactly |
| ImportOutcomes.StudentNamed | internal/sync/student_import.go:156-170 | a row is about the live student with its code, or else about its own new id |
| ImportOutcomes.StudentWritten | internal/sync/student_import.go:172-222 | the student's row holds every field of the import row, under its code or the next generated one |
| ImportOutcomes.ImportedRow | internal/sync/student_import.go:98-257 | an imported row, while schedule ids are the server's own: the student's fields, the profile's mode and exactly the row's weekdays, and no other row changed |
| HubProofs.HubSafety | internal/sync/hub.go:51-126 | in every interleaving no broadcast sends on a closed channel, a channel is closed at most once, queues hold at most 16, a channel is closed exactly if its client has left the map, and a client that missed a broadcast has an unregister pending |
| HubProofs.HubDelivery | internal/sync/hub.go:65-88 | a client has received or queued exactly what was meant for it, in order, if and only if it missed nothing |
| HubProofs.BroadcastReachesAll | internal/sync/hub.go:50-72 | over any run from the start of a broadcast to its end, every client that was in the map at the start has been offered its payload exactly once, and not before |
| HubProofs.RegisterOutcome | internal/sync/hub.go:36-48 | by the number of broadcasts between line 38 and line 45: below 16 the send goes through, at 16 it waits, above 16 it waits or panics |
| HubProofs.SeventeenPanics | internal/sync/hub.go:45-45 | seventeen broadcasts, the unregister they start, and the send panics |
| HubProofs.SixteenBlocks | internal/sync/hub.go:45-45 | after sixteen the send waits, and only a new connection or broadcast can happen |
| HubProofs.LeavesExactly | internal/sync/hub.go:69-126 | in every run a client has left the map or has an unregister pending if and only if a broadcast found its channel full or one of its loops has ended |
| HubProofs.MissedExactly | internal/sync/hub.go:65-71 | a client misses a broadcast exactly if it was offered one while sixteen payloads were waiting |
| HubProofs.MissedClientLeaves | internal/sync/hub.go:113-126 | a client that missed a broadcast, or one of whose loops has ended, can be unregistered as soon as nobody holds the lock, and its channel is then closed once |
| HubProofs.RunsAreSound | internal/sync/hub.go:29-126 | the invariant behind these holds after every sequence of steps |
| AvatarServiceModel.AvatarService.Confirm | internal/media/avatar_import.go:208-381 | with replace and no error, students with a processed item have exactly the avatars stored by the call and one primary if any; with keep, of these students those with avatars are unchanged and the others gain at most one; every student without a processed item is unchanged, whatever the strategy and the result; imported items stay as they are; the counters match the items. If no operation fails it succeeds exactly if the request is in order and the old avatars may be deleted, and then each processed item is skipped exactly if its student had an avatar and the strategy is keep, and imported otherwise if there is such a student |
| AvatarServiceModel.AvatarService.ConfirmItems | internal/media/avatar_import.go:254-348 | the confirm loop, with the same claims over its items and the count of imported ones |
| AvatarServiceModel.AvatarService.ReadRequest | internal/media/avatar_import.go:228-246 | the pairs are accepted exactly if each names an item and a student the caller may import for, and then exactly the named items are requested |
| AvatarServiceModel.AvatarService.Complete | internal/media/avatar_import.go:350-381 | the counters of the batch match its items, and the batch is completed |
| AvatarServiceModel.AvatarService.ConfirmItem | internal/media/avatar_import.go:258-348 | one item: skipped, failed, imported, or an error of the whole call |
| AvatarServiceModel.AvatarService.ImportItem | internal/media/avatar_import.go:301-347 | fetch, store, mark: the item is imported only with a media row of its student |
| AvatarServiceModel.AvatarService.UpdateStatus | internal/media/store.go:609-656 | the item's row changes, or nothing does; an imported row names a media row of its student |
| AvatarServiceModel.AvatarService.DeleteAll | internal/media/avatar_import.go:286-299 | the student's avatars are all deleted, or an error leaves some of them; no other student is touched |
| AvatarServiceModel.AvatarService.DeleteAvatar | internal/media/service.go:172-201 | an error may come after the row was deleted |
| AvatarServiceModel.AvatarService.StoreAvatar | internal/media/service.go:370-484 | a new row, primary exactly if the student had no avatar; an error may come after it was inserted |
| AvatarServiceModel.AvatarService.Analyze | internal/media/avatar_import.go:90-178 | one item for each file with matching counters; if no operation fails each item stands as its file was guessed, failed if it is not a readable image; an error may leave a batch with some of its items |
| AvatarServiceModel.AvatarService.AnalyzeFile | internal/media/avatar_import.go:91-160 | each file adds one item and one to the counter of its status |
| AvatarServiceModel.AvatarService.InsertBatch | internal/media/store.go:519-559 | after an error the table holds a beginning of the items |
| AvatarServiceModel.MediaStore.SetPrimaryAvatar | internal/media/store.go:371-402 | afterwards the avatar is the student's only primary one, or nothing has changed |
| AvatarServiceModel.MediaStore.SoftDeleteStudentMedia | internal/media/store.go:404-419 | marks a live row of the student deleted and not primary |
| AvatarServiceModel.MediaStore.InsertStudentMedia | internal/media/store.go:210-262 | adds the row or changes nothing |
| AvatarSpec.CountersSum | internal/media/avatar_import.go:350-365 | the five counters plus the skipped items equal the total exactly if all analyzed items are in the table |
| AvatarSpec.CountsAddUp | internal/media/avatar_import.go:596-604 | the counts over the six statuses add up to the number of items |
| AvatarSpec.PartialBatchDoesNotAddUp | internal/media/store.go:519-559 | a batch whose second item failed to be inserted does not add up to its total |
| AvatarServiceModel.StoredRenewed | internal/media/service.go:415-421 | storing one more avatar for a renewed student keeps exactly one primary |
| AvatarServiceModel.StoredKept | internal/media/avatar_import.go:269-284 | a student without avatars gains a primary one |

## Left out

- HTTP handlers, routing, configuration, login, tokens, invitations and audit-log listing.
- Object storage, image decoding, presigned links and the reading and writing of spreadsheets: each such operation is an arbitrary
  success or failure, and the imports start from parsed cells.
- Regular expressions for e-mail and phone, duplicate checks inside a file, and the other row-level parsing of the imports
  (internal/sync/student_import.go:350-483), which only choose the rows an import starts from.
- The guess which student an avatar file belongs to (internal/media/avatar_import.go:512-559), and whether a file is a readable image: they are
  parameters of `Analyze`.
- Accent removal and case folding: `normalize` is an uninterpreted function.
- Nanoseconds: the server time is taken at the microsecond precision of the columns, so a `server_modified_at` text and its column agree.
- A JSON payload that decodes as another entity's record: decoding under the wrong entity is treated as an error.
- AttendanceServiceModel.AttendanceService.PushActions: returns the outcome of each action; the response's lists of ids, changes and errors
  (internal/sync/attendance_actions.go:67-71), which are read off the outcomes, are not built.
- Conflict messages and the server record attached to a conflict; only the reason is kept.
- SyncStoreModel.SyncStore.InsertAuditLog: keeps neither the foreign keys of `audit_logs` nor the metadata of audit rows, which no other
  statement of the modelled code reads.
- SyncStoreModel.SyncStore.SaveProcessedMutation: keeps the device and mutation pair; the entity, record and time columns of the row are never
  read again.
- ExpectedStudents.AttendanceRoster.ActiveStudents: does not keep the ORDER BY of the query (internal/postgres/store.go:1213), which follows
  the database's collation; the list comes in any order, and is sorted by name afterwards whenever the club has a schedule.
- UtcTextProofs.StaleTestExact: speaks of client times in UTC with a digit fraction or none; texts with another offset, which the server
  also accepts, compare by their own digits and are not covered.
- The author's full name in a mirrored note: the caller's id stands for it, which no result depends on.
- Row locks and waiting inside PostgreSQL: a request runs alone, except in `CommitSpec`, where writes of several transactions interleave but
  do not block one another.
- How the rows a caller is shown by Rebase compare with those Pull lets them read: Rebase goes by memberships, Pull by permissions.
- RebaseModel.RebaseService.Rebase: does not keep the ORDER BY of the ten list queries; a list comes in any order.
- The start-up backfill that inserts log rows with old timestamps; runs begin after it.
- Rows of the unused listing helpers (internal/postgres/store.go:2628-3021).
- Random ids are assumed new; a collision is not modelled.
- UtcTextSpec.ParseUtc: accepts UTC texts only, and any day from 1 to 31 in any month, because no result depends on month lengths or offsets.
- HubProofs.HubSafety: does not model the starvation rules of Go's RWMutex, because they only remove interleavings.
- AvatarServiceModel.AvatarService.Confirm: takes the replace strategy already trimmed and in lower case.
