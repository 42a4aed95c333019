/** What attendance actions guarantee: they are vetted writes, they follow the reopen rule, four of them are atomic,
    and deletion reaches everything that belongs to a session. */
module AttendanceProofs {
  import opened Text
  import opened Records
  import opened Tables
  import opened Lookups
  import opened History
  import opened Authorization
  import opened Canonical
  import opened CanonicalProofs
  import opened PushSpec
  import opened AttendanceSpec

  // ----- saving -------------------------------------------------------------

  /** A session is saved with its stored row at hand, and deleted with its stored status. */
  ghost predicate SessionInPlace(rows: Rows, operation: Operation, id: string, doc: Record, existing: Option<Row>) {
    doc.body.Session? ==>
      && existing == Lookup(rows, AttendanceSessions, id)
      && (operation.Delete? ==>
          existing.Some? && existing.value.body.Session? && existing.value.body.status == doc.body.status)
  }

  /** A save writes one vetted canonical record at the server time and touches nothing but the tables and the log. */
  lemma SaveEffect(env: Env, db: Db, operation: Operation, id: string, doc: Record, now: Time, existing: Option<Row>)
    requires Save(env, db, operation, id, doc, now, existing).Saved?
    requires id != "" || doc.body.Attendance?
    requires !doc.body.Student? && SessionInPlace(db.core.rows, operation, id, doc, existing)
    ensures var Saved(after, rec) := Save(env, db, operation, id, doc, now, existing);
      && Write(env, db.core, rec, now) == Some(after.core)
      && Vetted(env, db.core.rows, rec, now, true)
      && after == db.(core := after.core)
      && KeyOf(rec) == Key(EntityOf(doc.body), id)
      && (rec.body == if doc.body.Message? then doc.body.(content := TrimSpace(doc.body.content)) else doc.body)
      && rec.deletedAt == (if operation.Delete? then Some(env.formatTime(now)) else doc.deletedAt)
      && rec.lastModifiedAt == env.formatTime(now)
  {
    hide Write;
    CanonicalIsVetted(env, db.core.rows, db.counter, EntityOf(doc.body), operation, id, Decoded(doc), now, existing);
    AcceptKeepsFields(env, db.core.rows, db.counter, operation, id, doc.body, now, existing);
    hide Vetted, Vet;
  }

  lemma SaveEvolves(env: Env, db: Db, operation: Operation, id: string, doc: Record, now: Time, existing: Option<Row>)
    requires Save(env, db, operation, id, doc, now, existing).Saved?
    requires (id != "" || doc.body.Attendance?) && !doc.body.Student?
    requires SessionInPlace(db.core.rows, operation, id, doc, existing)
    ensures Evolves(env, db.core, Save(env, db, operation, id, doc, now, existing).db.core, now, true)
  {
    SaveEffect(env, db, operation, id, doc, now, existing);
    EvolvesWrite(env, db.core, Save(env, db, operation, id, doc, now, existing).record, now, true);
    hide *;
  }

  /** Only attendance records and messages are written in batches. */
  ghost predicate BatchEntity(docs: seq<Record>) {
    forall i | 0 <= i < |docs| :: docs[i].body.Attendance? || docs[i].body.Message?
  }

  /** `rec` is `doc` as it is stored at `now`. */
  ghost predicate CanonicalOf(env: Env, operation: Operation, doc: Record, rec: Record, now: Time) {
    && rec.id == doc.id
    && rec.body == (if doc.body.Message? then doc.body.(content := TrimSpace(doc.body.content)) else doc.body)
    && rec.deletedAt == (if operation.Delete? then Some(env.formatTime(now)) else doc.deletedAt)
    && rec.createdAt == (if doc.createdAt == "" then env.formatTime(now) else doc.createdAt)
    && rec.updatedAt == rec.lastModifiedAt == env.formatTime(now)
  }

  lemma CanonicalEffect(env: Env, rows: Rows, operation: Operation, doc: Record, now: Time)
    requires doc.body.Attendance? || doc.body.Message?
    requires Canonicalize(env, rows, 0, EntityOf(doc.body), operation, doc.id, Decoded(doc), now, None).Canonical?
    ensures CanonicalOf(env, operation, doc, Canonicalize(env, rows, 0, EntityOf(doc.body), operation, doc.id,
                                                          Decoded(doc), now, None).record, now)
  {
  }

  lemma {:induction false} CanonicalizeAllEffect(env: Env, rows: Rows, operation: Operation, docs: seq<Record>,
                                                 now: Time)
    requires BatchEntity(docs)
    requires CanonicalizeAll(env, rows, operation, docs, now).AllCanonical?
    ensures var recs := CanonicalizeAll(env, rows, operation, docs, now).records;
      |recs| == |docs| && forall i | 0 <= i < |docs| :: CanonicalOf(env, operation, docs[i], recs[i], now)
  {
    hide Canonicalize, CanonicalOf, EntityOf;
    if docs != [] {
      var n := |docs| - 1;
      CanonicalizeAllEffect(env, rows, operation, docs[..n], now);
      CanonicalEffect(env, rows, operation, docs[n], now);
      var recs := CanonicalizeAll(env, rows, operation, docs, now).records;
      var front := CanonicalizeAll(env, rows, operation, docs[..n], now).records;
      forall i | 0 <= i < |docs|
        ensures CanonicalOf(env, operation, docs[i], recs[i], now)
      {
        if i < n {
          assert docs[..n][i] == docs[i] && front[i] == recs[i];
        }
      }
    }
  }

  /** Attendance records and messages need no vetting beyond what the database checks. */
  lemma {:induction false} BatchEvolves(env: Env, core: Core, recs: seq<Record>, now: Time)
    requires forall i | 0 <= i < |recs| :: recs[i].body.Attendance? || recs[i].body.Message?
    requires WriteAll(env, core, recs, now).Some?
    ensures Evolves(env, core, WriteAll(env, core, recs, now).value, now, true)
  {
    hide Write;
    forall i | 0 <= i < |recs|
      ensures VettedAt(env, core, recs, now, true, i)
    {
      WriteAllPrefix(env, core, recs, i, now);
    }
    EvolvesBatch(env, core, recs, now, true);
  }

  lemma CanonicalBatchEvolves(env: Env, core: Core, operation: Operation, docs: seq<Record>, now: Time)
    requires BatchEntity(docs)
    requires CanonicalizeAll(env, core.rows, operation, docs, now).AllCanonical?
    requires WriteAll(env, core, CanonicalizeAll(env, core.rows, operation, docs, now).records, now).Some?
    ensures Evolves(env, core, WriteAll(env, core, CanonicalizeAll(env, core.rows, operation, docs, now).records,
                                        now).value, now, true)
  {
    CanonicalizeAllEffect(env, core.rows, operation, docs, now);
    var recs := CanonicalizeAll(env, core.rows, operation, docs, now).records;
    forall i | 0 <= i < |recs|
      ensures recs[i].body.Attendance? || recs[i].body.Message?
    {
      assert CanonicalOf(env, operation, docs[i], recs[i], now);
    }
    BatchEvolves(env, core, recs, now);
    hide *;
  }

  // ----- the databases an action passes through -------------------------------

  /** What a step may leave behind: vetted writes and audit rows, nothing else. */
  ghost predicate Progress(env: Env, before: Db, after: Db, now: Time) {
    && Evolves(env, before.core, after.core, now, true)
    && after.processed == before.processed
    && after.counter == before.counter
    && before.audit <= after.audit
  }

  ghost predicate StepProgress(env: Env, before: Db, step: ActionStep, now: Time) {
    !step.ActionError? ==> Progress(env, before, step.db, now)
  }

  lemma ProgressNothing(env: Env, db: Db, now: Time)
    ensures Progress(env, db, db, now)
  {
    EvolvesNothing(env, db.core, now, true);
  }

  lemma ProgressTogether(env: Env, a: Db, b: Db, c: Db, now: Time)
    requires Progress(env, a, b, now) && Progress(env, b, c, now)
    ensures Progress(env, a, c, now)
  {
    EvolvesTogether(env, a.core, b.core, c.core, now, true);
  }

  lemma ProgressAudit(env: Env, a: Db, b: Db, row: AuditRow, now: Time)
    requires Progress(env, a, b, now)
    ensures Progress(env, a, b.(audit := b.audit + [row]), now)
  {
    hide Evolves;
  }

  lemma SaveProgress(env: Env, db: Db, operation: Operation, id: string, doc: Record, now: Time, existing: Option<Row>)
    requires Save(env, db, operation, id, doc, now, existing).Saved?
    requires (id != "" || doc.body.Attendance?) && !doc.body.Student?
    requires SessionInPlace(db.core.rows, operation, id, doc, existing)
    ensures Progress(env, db, Save(env, db, operation, id, doc, now, existing).db, now)
  {
    SaveEvolves(env, db, operation, id, doc, now, existing);
    SaveEffect(env, db, operation, id, doc, now, existing);
    hide Evolves, Save, Write, Vetted;
  }

  lemma SaveAuditedProgress(env: Env, caller: Caller, now: Time, db: Db, a: Action, doc: Record, row: Row)
    requires (doc.id != "" || doc.body.Attendance?) && !doc.body.Student?
    requires SessionInPlace(db.core.rows, Upsert, doc.id, doc, Some(row))
    ensures StepProgress(env, db, SaveAudited(env, caller, now, db, a, doc, row), now)
  {
    ProgressNothing(env, db, now);
    if Save(env, db, Upsert, doc.id, doc, now, Some(row)).Saved? {
      SaveProgress(env, db, Upsert, doc.id, doc, now, Some(row));
      var Saved(db1, saved) := Save(env, db, Upsert, doc.id, doc, now, Some(row));
      ProgressAudit(env, db, db1, ActionAudit(env, caller, a, a.clubId, Some(row), saved), now);
    }
    hide Progress, Save, ActionAudit;
  }

  lemma {:induction false} OwnRecordsAreAttendance(records: seq<Record>, sessionId: string)
    ensures forall r | r in OwnRecords(records, sessionId) :: r.body.Attendance? && r.body.sessionId == sessionId
    ensures OwnRecords(records, sessionId) <= records
  {
    if records != [] {
      OwnRecordsAreAttendance(records[1..], sessionId);
      assert records == [records[0]] + records[1..];
    }
  }

  lemma CreateRecordsProgress(env: Env, now: Time, db: Db, a: Action, saved: Record, records: seq<Record>)
    ensures StepProgress(env, db, CreateRecords(env, now, db, a, saved, records), now)
  {
    ProgressNothing(env, db, now);
    var own := OwnRecords(records, a.sessionId);
    OwnRecordsAreAttendance(records, a.sessionId);
    assert BatchEntity(own);
    if CreateRecords(env, now, db, a, saved, records).Performed? {
      CanonicalBatchEvolves(env, db.core, Upsert, own, now);
    }
    hide Evolves, WriteAll, CanonicalizeAll, OwnRecords;
  }

  lemma CreateSessionProgress(env: Env, caller: Caller, now: Time, db: Db, a: Action, session: Record,
                              records: seq<Record>)
    requires a.sessionId != ""
    ensures StepProgress(env, db, ApplyCreateSession(env, caller, now, db, a, session, records), now)
  {
    ProgressNothing(env, db, now);
    hide Progress, CreateRecords, ActionAudit;
    var existing := Lookup(db.core.rows, AttendanceSessions, a.sessionId);
    if session.body.Session? && Save(env, db, Upsert, a.sessionId, session, now, existing).Saved? {
      var Saved(db1, saved) := Save(env, db, Upsert, a.sessionId, session, now, existing);
      SaveProgress(env, db, Upsert, a.sessionId, session, now, existing);
      hide Save;
      var row := ActionAudit(env, caller, a, session.body.clubId, existing, saved);
      ProgressAudit(env, db, db1, row, now);
      var db2 := db1.(audit := db1.audit + [row]);
      CreateRecordsProgress(env, now, db2, a, saved, records);
      var step := CreateRecords(env, now, db2, a, saved, records);
      if !step.ActionError? {
        ProgressTogether(env, db, db2, step.db, now);
      }
    }
  }

  lemma {:induction false} PresentDocsAreAttendance(env: Env, rows: Rows, ids: seq<string>, checkInAt: Option<string>)
    requires Tagged(rows)
    ensures BatchEntity(PresentDocs(env, rows, ids, checkInAt))
  {
    if ids != [] {
      var n := |ids| - 1;
      PresentDocsAreAttendance(env, rows, ids[..n], checkInAt);
      hide PresentDocs;
      PresentDocsLast(env, rows, ids, checkInAt);
    }
  }

  /** The last id adds at most one payload, and that is an attendance record. */
  lemma PresentDocsLast(env: Env, rows: Rows, ids: seq<string>, checkInAt: Option<string>)
    requires Tagged(rows) && ids != []
    ensures var front := PresentDocs(env, rows, ids[..|ids| - 1], checkInAt);
      var key := Key(AttendanceRecords, ids[|ids| - 1]);
      PresentDocs(env, rows, ids, checkInAt) ==
        if key !in rows then front
        else front + [PresentDoc(env, rows, key.id, checkInAt)]
  {
    var key := Key(AttendanceRecords, ids[|ids| - 1]);
    if key in rows {
      assert EntityOf(rows[key].body) == AttendanceRecords;
    }
  }

  /** The payload mark_all_present writes for one stored record. */
  function PresentDoc(env: Env, rows: Rows, id: string, checkInAt: Option<string>): (doc: Record)
    requires Key(AttendanceRecords, id) in rows
  {
    var row := rows[Key(AttendanceRecords, id)];
    if row.body.Attendance? then
      FromRow(env, id, row).(body :=
                             Attendance(row.body.sessionId, row.body.studentId, "present", checkInAt, row.body.notes))
    else
      FromRow(env, id, row)
  }

  lemma MarkAllProgress(env: Env, now: Time, db: Db, a: Action)
    requires a.body.MarkAllPresent? && Tagged(db.core.rows)
    ensures StepProgress(env, db, ApplyMarkAllPresent(env, now, db, a), now)
  {
    ProgressNothing(env, db, now);
    var step := ApplyMarkAllPresent(env, now, db, a);
    if step.Performed? && a.body.targets.value.0 != [] {
      var (ids, checkInAt) := a.body.targets.value;
      var docs :=
        PresentDocs(env, db.core.rows,
                    Keep(env.listing(SessionRecordIds(db.core.rows, a.sessionId)), set id | id in ids), checkInAt);
      PresentDocsAreAttendance(env, db.core.rows, Keep(env.listing(SessionRecordIds(db.core.rows, a.sessionId)),
                                                       set id | id in ids), checkInAt);
      CanonicalBatchEvolves(env, db.core, Upsert, docs, now);
    }
    hide Evolves, WriteAll, CanonicalizeAll, PresentDocs, Keep;
  }

  lemma DeleteListedProgress(env: Env, now: Time, db: Db, entity: EntityName, ids: set<string>)
    requires Tagged(db.core.rows) && (entity == AttendanceRecords || entity == StudentMessages)
    ensures StepProgress(env, db, DeleteListed(env, now, db, entity, ids), now)
  {
    ProgressNothing(env, db, now);
    var order := env.listing(ids);
    if DeleteListed(env, now, db, entity, ids).Performed? {
      var docs := ReadBack(env, db.core.rows, entity, order);
      assert BatchEntity(docs) by {
        forall i | 0 <= i < |docs|
          ensures docs[i].body.Attendance? || docs[i].body.Message?
        {
          assert order[i] in order;
          assert EntityOf(db.core.rows[Key(entity, order[i])].body) == entity;
        }
      }
      CanonicalBatchEvolves(env, db.core, Delete, docs, now);
    }
    hide Evolves, WriteAll, CanonicalizeAll, ReadBack;
  }

  lemma ProgressKeepsTags(env: Env, before: Db, after: Db, now: Time)
    requires Invariant(env, before.core) && NotAfter(before.core, now)
    requires Progress(env, before, after, now)
    ensures Invariant(env, after.core) && NotAfter(after.core, now)
  {
    hide Invariant, NotAfter, Evolves;
    EvolvesKeepsInvariant(env, before.core, after.core, now, true);
  }

  /** The server's state before an action at `now`. */
  ghost predicate Ready(env: Env, db: Db, now: Time) {
    Invariant(env, db.core) && NotAfter(db.core, now)
  }

  /** A session that is found is saved in place. */
  lemma LoadedInPlace(env: Env, rows: Rows, a: Action)
    requires LoadSession(rows, a).Found?
    ensures var row := LoadSession(rows, a).row;
      var doc := FromRow(env, a.sessionId, row);
      doc.body.Session? && SessionInPlace(rows, Delete, a.sessionId, doc, Some(row))
  {
  }

  lemma DeleteSessionProgress(env: Env, caller: Caller, now: Time, db: Db, a: Action)
    requires a.body.DeleteSession? && a.sessionId != "" && Ready(env, db, now)
    ensures StepProgress(env, db, ApplyDeleteSession(env, caller, now, db, a), now)
  {
    hide Progress, DeleteSessionRecords, ActionAudit, Invariant, NotAfter, Save, LoadSession, FromRow;
    ProgressNothing(env, db, now);
    if LoadSession(db.core.rows, a).Found? {
      var row := LoadSession(db.core.rows, a).row;
      var doc := FromRow(env, a.sessionId, row);
      LoadedInPlace(env, db.core.rows, a);
      if Save(env, db, Delete, a.sessionId, doc, now, Some(row)).Saved? {
        var Saved(db1, saved) := Save(env, db, Delete, a.sessionId, doc, now, Some(row));
        SaveProgress(env, db, Delete, a.sessionId, doc, now, Some(row));
        ProgressKeepsTags(env, db, db1, now);
        DeletePartsProgress(env, caller, now, db1, a, row, saved);
        var step := DeleteSessionRecords(env, caller, now, db1, a, row, saved);
        if !step.ActionError? {
          ProgressTogether(env, db, db1, step.db, now);
        }
      }
    }
  }

  lemma DeletePartsProgress(env: Env, caller: Caller, now: Time, db: Db, a: Action, row: Row, saved: Record)
    requires Ready(env, db, now)
    ensures StepProgress(env, db, DeleteSessionRecords(env, caller, now, db, a, row, saved), now)
  {
    ProgressNothing(env, db, now);
    assert Tagged(db.core.rows);
    var ids := SessionRecordIds(db.core.rows, a.sessionId);
    DeleteListedProgress(env, now, db, AttendanceRecords, ids);
    var first := DeleteListed(env, now, db, AttendanceRecords, ids);
    if first.Performed? {
      ProgressKeepsTags(env, db, first.db, now);
      assert Tagged(first.db.core.rows);
      hide Progress, DeleteListed, ActionAudit, Invariant, NotAfter, SessionRecordIds, SessionMessageIds;
      var messages := SessionMessageIds(first.db.core.rows, a.sessionId);
      DeleteListedProgress(env, now, first.db, StudentMessages, messages);
      var second := DeleteListed(env, now, first.db, StudentMessages, messages);
      if second.Performed? {
        ProgressTogether(env, db, first.db, second.db, now);
        ProgressAudit(env, db, second.db, ActionAudit(env, caller, a, a.clubId, Some(row), saved), now);
      }
    }
  }

  /** The record with the requested note. */
  function NotedRecord(env: Env, a: Action, row: Row): Record
    requires a.body.SetRecordNote? && a.body.note.Some? && a.recordId.Some?
  {
    var doc := FromRow(env, a.recordId.value, row);
    doc.(body := NoteFields(doc.body, a.body.note.value))
  }

  /** The record a note is set on, and its session. */
  lemma NotedTarget(env: Env, rows: Rows, a: Action)
    requires a.body.SetRecordNote? && a.body.note.Some? && LoadRecord(rows, a).Found?
    ensures a.recordId.Some? && a.recordId.value != "" && a.studentId.Some?
    ensures var noted := NotedRecord(env, a, LoadRecord(rows, a).row);
      && noted.body.Attendance? && noted.id == a.recordId.value && noted.body.notes == a.body.note.value
      && noted.body.studentId == a.studentId.value != ""
    ensures var k := Key(AttendanceSessions, a.sessionId);
      k in rows && rows[k].body.Session? && rows[k].body.clubId == a.clubId
  {
  }

  lemma SetRecordNoteProgress(env: Env, caller: Caller, now: Time, db: Db, a: Action)
    requires a.body.SetRecordNote? && Ready(env, db, now)
    ensures StepProgress(env, db, ApplySetRecordNote(env, caller, now, db, a), now)
  {
    hide Save, FromRow, LoadRecord, Progress, Invariant, NotAfter, ActionAudit, SyncNoteMessage, NoteFields, Blank;
    ProgressNothing(env, db, now);
    if LoadRecord(db.core.rows, a).Found? && a.body.note.Some? {
      var row := LoadRecord(db.core.rows, a).row;
      NotedTarget(env, db.core.rows, a);
      var noted := NotedRecord(env, a, row);
      if Save(env, db, Upsert, noted.id, noted, now, Some(row)).Saved? {
        NotedProgress(env, caller, now, db, a, noted, row);
      }
    }
  }

  /** The second half of set_record_note: its record row is already written. */
  lemma NotedProgress(env: Env, caller: Caller, now: Time, db: Db, a: Action, noted: Record, row: Row)
    requires Ready(env, db, now) && noted.body.Attendance?
    requires Save(env, db, Upsert, noted.id, noted, now, Some(row)).Saved?
    ensures var Saved(db1, saved) := Save(env, db, Upsert, noted.id, noted, now, Some(row));
      var step := SyncNoteMessage(env, caller, now, db1, a, noted);
      !step.ActionError? ==>
        && Progress(env, db, step.db, now)
        && Progress(env, db,
                    step.db.(audit := step.db.audit + [ActionAudit(env, caller, a, a.clubId, Some(row), saved)]), now)
  {
    hide Save, FromRow, Progress, Invariant, NotAfter, ActionAudit, SyncNoteMessage;
    var Saved(db1, saved) := Save(env, db, Upsert, noted.id, noted, now, Some(row));
    SaveProgress(env, db, Upsert, noted.id, noted, now, Some(row));
    ProgressKeepsTags(env, db, db1, now);
    NoteMessageProgress(env, caller, now, db1, a, noted);
    var step := SyncNoteMessage(env, caller, now, db1, a, noted);
    if !step.ActionError? {
      ProgressTogether(env, db, db1, step.db, now);
      ProgressAudit(env, db, step.db, ActionAudit(env, caller, a, a.clubId, Some(row), saved), now);
    }
  }

  /** The mirror message is an attendance note, which canonicalization reserves for the system and refuses to write. */
  lemma NoteMessageRefused(env: Env, caller: Caller, now: Time, db: Db, a: Action, session: Row, noted: Record)
    requires session.body.Session? && noted.body.Attendance? && !BlankNote(noted.body.notes)
    ensures WriteNoteMessage(env, caller, now, db, a, session, noted) ==
      if noted.body.studentId == "" || session.body.clubId == "" then ActionError else Reported(db, ValidationFailed)
  {
    hide Write;
  }

  lemma RemoveNoteProgress(env: Env, now: Time, db: Db, messageId: string)
    requires Ready(env, db, now) && messageId != ""
    ensures StepProgress(env, db, RemoveNoteMessage(env, now, db, messageId), now)
  {
    hide Save, FromRow, Progress, Invariant, NotAfter, EntityOf;
    ProgressNothing(env, db, now);
    var key := Key(StudentMessages, messageId);
    if key in db.core.rows {
      var message := db.core.rows[key];
      MessageRendered(env, db.core, messageId);
      var doc := FromRow(env, messageId, message);
      if Save(env, db, Delete, messageId, doc, now, Some(message)).Saved? {
        SaveProgress(env, db, Delete, messageId, doc, now, Some(message));
      }
    }
  }

  lemma MessageRendered(env: Env, core: Core, id: string)
    requires Invariant(env, core) && Key(StudentMessages, id) in core.rows
    ensures FromRow(env, id, core.rows[Key(StudentMessages, id)]).body.Message?
  {
    assert EntityOf(core.rows[Key(StudentMessages, id)].body) == StudentMessages;
  }

  lemma NoteMessageProgress(env: Env, caller: Caller, now: Time, db: Db, a: Action, noted: Record)
    requires Ready(env, db, now)
    ensures StepProgress(env, db, SyncNoteMessage(env, caller, now, db, a, noted), now)
  {
    hide Progress, Invariant, NotAfter, WriteNoteMessage, RemoveNoteMessage;
    ProgressNothing(env, db, now);
    RemoveNoteProgress(env, now, db, NoteMessageId(noted.id));
    var session := Lookup(db.core.rows, AttendanceSessions, a.sessionId);
    if noted.body.Attendance? && !BlankNote(noted.body.notes) && session.Some? && session.value.body.Session? {
      NoteMessageRefused(env, caller, now, db, a, session.value, noted);
    }
  }

  lemma SetRecordStatusProgress(env: Env, caller: Caller, now: Time, db: Db, a: Action)
    requires a.body.SetRecordStatus?
    ensures StepProgress(env, db, ApplySetRecordStatus(env, caller, now, db, a), now)
  {
    ProgressNothing(env, db, now);
    if LoadRecord(db.core.rows, a).Found? && a.body.mark.Some? {
      var row := LoadRecord(db.core.rows, a).row;
      var doc := FromRow(env, a.recordId.value, row);
      SaveAuditedProgress(env, caller, now, db, a,
                          doc.(body := MarkFields(doc.body, a.body.mark.value.0, a.body.mark.value.1)), row);
    }
    hide Progress, SaveAudited;
  }

  /** Every action, however it ends, is a run of vetted writes plus audit rows. */
  lemma ActionProgress(env: Env, caller: Caller, now: Time, db: Db, a: Action)
    requires Ready(env, db, now) && a.sessionId != ""
    ensures StepProgress(env, db, ApplyAction(env, caller, now, db, a), now)
  {
    hide Progress, ApplyCreateSession, ApplySetRecordStatus, ApplyMarkAllPresent, ApplySetRecordNote, ApplySetSession,
      ApplyDeleteSession, LogOrdered, Indexed, Referenced, Named, GroupsDistinct, AllStored, NotAfter, Replay;
    match a.body {
      case CreateSession(content) =>
        if content.Some? {
          CreateSessionProgress(env, caller, now, db, a, content.value.0, content.value.1);
        }
      case SetRecordStatus(_) => SetRecordStatusProgress(env, caller, now, db, a);
      case MarkAllPresent(_) => MarkAllProgress(env, now, db, a);
      case SetRecordNote(_) => SetRecordNoteProgress(env, caller, now, db, a);
      case SetSessionNote(_) => SetSessionProgress(env, caller, now, db, a);
      case SetSessionStatus(_) => SetSessionProgress(env, caller, now, db, a);
      case DeleteSession(_) => DeleteSessionProgress(env, caller, now, db, a);
      case OtherAction =>
    }
  }

  lemma SetSessionProgress(env: Env, caller: Caller, now: Time, db: Db, a: Action)
    requires a.body.SetSessionNote? || a.body.SetSessionStatus?
    requires a.sessionId != ""
    ensures StepProgress(env, db, ApplySetSession(env, caller, now, db, a), now)
  {
    ProgressNothing(env, db, now);
    hide Progress, SaveAudited;
    if LoadSession(db.core.rows, a).Found? {
      var row := LoadSession(db.core.rows, a).row;
      var doc := FromRow(env, a.sessionId, row);
      if a.body.SetSessionNote? && a.body.note.Some? {
        SaveAuditedProgress(env, caller, now, db, a,
                            doc.(body := SessionFields(doc.body, row.body.status, a.body.note.value)), row);
      }
      if a.body.SetSessionStatus? && a.body.newStatus.Some? {
        SaveAuditedProgress(env, caller, now, db, a,
                            doc.(body := SessionFields(doc.body, a.body.newStatus.value, row.body.notes)), row);
      }
    }
  }
}
