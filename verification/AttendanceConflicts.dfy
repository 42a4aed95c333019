/** Conflicts that are reported although the action has already written: exactly when that happens. */
module AttendanceConflicts {
  import opened Text
  import opened Records
  import opened Tables
  import opened Lookups
  import opened History
  import opened Authorization
  import opened Canonical
  import opened CanonicalProofs
  import opened PushSpec
  import opened AttendanceSpec
  import opened AttendanceProofs
  import opened AttendanceResults
  import opened Sample

  // ----- what a save comes to, before it is tried --------------------------------------

  /** The texts of a payload can be put into columns. An empty createdAt is replaced by the server's time. */
  ghost predicate Storable(env: Env, doc: Record) {
    && (doc.createdAt == "" || env.parseTime(doc.createdAt).Some?)
    && (doc.deletedAt.None? || env.parseTime(doc.deletedAt.value).Some?)
    && ToColumns(env, doc.body).Some?
  }

  /** Saving a session or an attendance record, by what holds of the tables before it. */
  lemma SaveOutcome(env: Env, db: Db, operation: Operation, doc: Record, now: Time, existing: Option<Row>)
    requires ValidEnv(env) && Tagged(db.core.rows) && (doc.body.Session? || doc.body.Attendance?)
    requires operation.Upsert? || (operation.Delete? && doc.body.Session?)
    ensures var rows := db.core.rows;
      var saving := Save(env, db, operation, doc.id, doc, now, existing);
      if !FieldsValid(operation, doc.body) then saving == SaveError
      else if doc.body.Session? && ReopensLate(env, operation, doc.body.status, now, existing) then
        saving == SaveRefused(BusinessRule)
      else if !ReferencesLive(rows, operation, doc.body) then saving == SaveRefused(ForeignKeyMissing)
      else if !ValueFree(env, rows, db.counter, operation, doc.id, doc.body) then saving == SaveRefused(DuplicateValue)
      else
        && (Storable(env, doc) ==> saving.Saved?)
        && (operation.Upsert? && saving.Saved? ==> Storable(env, doc))
        && (!saving.Saved? ==> saving == SaveError)
  {
    var rows := db.core.rows;
    AcceptedExactly(env, rows, db.counter, operation, doc.id, doc.body, now, existing);
    VerdictOutcome(env, db, operation, doc, now, existing);
    hide Vet, FieldsValid, ReferencesLive, ValueFree, ReopensLate;
  }

  lemma VerdictOutcome(env: Env, db: Db, operation: Operation, doc: Record, now: Time, existing: Option<Row>)
    requires ValidEnv(env) && Tagged(db.core.rows) && (doc.body.Session? || doc.body.Attendance?)
    requires operation.Upsert? || (operation.Delete? && doc.body.Session?)
    ensures var v := Vet(env, db.core.rows, db.counter, operation, doc.id, doc.body, now, existing);
      var saving := Save(env, db, operation, doc.id, doc, now, existing);
      && (v.Fail? ==> saving == SaveError && !FieldsValid(operation, doc.body))
      && (v.Refuse? ==>
            && saving == SaveRefused(v.reason) && v.reason != ValidationFailed && FieldsValid(operation, doc.body)
            && (v.reason != BusinessRule ==>
                  !(doc.body.Session? && ReopensLate(env, operation, doc.body.status, now, existing))))
      && (v.Accept? ==>
            && (Storable(env, doc) ==> saving.Saved?)
            && (operation.Upsert? && saving.Saved? ==> Storable(env, doc))
            && (!saving.Saved? ==> saving == SaveError))
  {
    var v := Vet(env, db.core.rows, db.counter, operation, doc.id, doc.body, now, existing);
    if v.Accept? {
      AcceptedWrite(env, db, operation, doc, now, existing);
    }
    hide Write, AttendanceTaken, Live, ReopensLate;
  }

  /** An accepted session or attendance record goes through unless its texts do not parse. */
  lemma AcceptedWrite(env: Env, db: Db, operation: Operation, doc: Record, now: Time, existing: Option<Row>)
    requires ValidEnv(env) && Tagged(db.core.rows) && (doc.body.Session? || doc.body.Attendance?)
    requires operation.Upsert? || (operation.Delete? && doc.body.Session?)
    requires Vet(env, db.core.rows, db.counter, operation, doc.id, doc.body, now, existing).Accept?
    ensures var rec := Stamp(env, operation, doc.id, doc, doc.body, now);
      && Vet(env, db.core.rows, db.counter, operation, doc.id, doc.body, now, existing) == Accept(doc.body, db.counter)
      && (Storable(env, doc) ==> Write(env, db.core, rec, now).Some?)
      && (operation.Upsert? && Write(env, db.core, rec, now).Some? ==> Storable(env, doc))
  {
    var rows := db.core.rows;
    AcceptKeepsFields(env, rows, db.counter, operation, doc.id, doc.body, now, existing);
    AcceptedExactly(env, rows, db.counter, operation, doc.id, doc.body, now, existing);
    var rec := Stamp(env, operation, doc.id, doc, doc.body, now);
    StampStorable(env, operation, doc, now);
    if doc.body.Attendance? {
      CanonicalFitsIndexes(env, rows, db.counter, AttendanceRecords, operation, doc.id, Decoded(doc), now, existing);
    }
    hide Vet, AttendanceTaken, ValidEnv, ToRow, Stamp, Storable;
    if ToRow(env, rec).Some? {
      ToRowKeepsEntity(env, rec);
      SameReferences(env, rows, rec);
    }
  }

  lemma StampStorable(env: Env, operation: Operation, doc: Record, now: Time)
    requires ValidEnv(env)
    ensures var rec := Stamp(env, operation, doc.id, doc, doc.body, now);
      && (Storable(env, doc) ==> ToRow(env, rec).Some?)
      && (operation.Upsert? && ToRow(env, rec).Some? ==> Storable(env, doc))
      && rec.id == doc.id && rec.body == doc.body
  {
    hide ToColumns;
    assert env.parseTime(env.formatTime(now)) == Some(now);
  }

  // ----- notes ---------------------------------------------------------------------

  /** A note that is not blank is never performed: its mirror message is refused. set_record_note with such a note,
      exactly: with a record that is not found it is reported or fails as the lookup says; with a live session, a live
      student and no other record of theirs the note is stored first and the refusal reported afterwards; otherwise
      nothing is changed. */
  lemma NonBlankNoteOutcome(env: Env, caller: Caller, now: Time, db: Db, a: Action)
    requires ValidEnv(env) && Tagged(db.core.rows) && a.clubId != "" && a.sessionId != ""
    requires a.body.SetRecordNote? && a.body.note.Some? && !BlankNote(a.body.note.value)
    ensures var rows := db.core.rows;
      var step := ApplySetRecordNote(env, caller, now, db, a);
      match LoadRecord(rows, a)
      case TargetError => step == ActionError
      case TargetConflict(reason) => step == Reported(db, reason)
      case Found(row) =>
        var student := row.body.studentId;
        if !IsAttendanceStatus(row.body.attendanceStatus) then step == ActionError
        else if !Live(rows, AttendanceSessions, a.sessionId) || !Live(rows, Students, student) then
          step == Reported(db, ForeignKeyMissing)
        else if AttendanceTaken(rows, a.sessionId, student, a.recordId.value) then step == Reported(db, DuplicateValue)
        else
          && step.Reported? && step.reason == ValidationFailed && step.db == db.(core := step.db.core)
          && OneRowChanged(db.core, step.db.core, Key(AttendanceRecords, a.recordId.value),
               Row(row.createdAt, now, now, row.deletedAt,
                   Attendance(a.sessionId, student, row.body.attendanceStatus, row.body.checkInAt, a.body.note.value)))
  {
    hide LoadRecord, FromRow, Save, WriteNoteMessage, Blank, ActionAudit, AttendanceTaken, Live, IsAttendanceStatus,
      OneRowChanged, TrimSpace, Tagged, ValidEnv, ReopensLate, Storable;
    if LoadRecord(db.core.rows, a).Found? {
      var row := LoadRecord(db.core.rows, a).row;
      NotedTarget(env, db.core.rows, a);
      var noted := NotedRecord(env, a, row);
      NotedStorable(env, db.core.rows, a);
      SaveOutcome(env, db, Upsert, noted, now, Some(row));
      var saving := Save(env, db, Upsert, a.recordId.value, noted, now, Some(row));
      var session := db.core.rows[Key(AttendanceSessions, a.sessionId)];
      if saving.Saved? {
        EditedRowStored(env, db, noted, now, row, Attendance(a.sessionId, row.body.studentId, row.body.attendanceStatus,
                                                             row.body.checkInAt, a.body.note.value));
        NoteSaved(env, db, a, noted, now, row);
        NoteMessageRefused(env, caller, now, saving.db, a, session, noted);
      }
    }
  }

  /** Whatever the tables hold, a note that is not blank is never performed. */
  lemma NonBlankNoteRefused(env: Env, caller: Caller, now: Time, db: Db, a: Action)
    requires a.body.SetRecordNote? && a.body.note.Some? && !BlankNote(a.body.note.value)
    ensures !ApplySetRecordNote(env, caller, now, db, a).Performed?
  {
    hide LoadRecord, FromRow, Save, WriteNoteMessage, Blank, ActionAudit, TrimSpace;
    if LoadRecord(db.core.rows, a).Found? {
      var row := LoadRecord(db.core.rows, a).row;
      NotedTarget(env, db.core.rows, a);
      var noted := NotedRecord(env, a, row);
      var saving := Save(env, db, Upsert, a.recordId.value, noted, now, Some(row));
      if saving.Saved? {
        NoteSaved(env, db, a, noted, now, row);
        NoteMessageRefused(env, caller, now, saving.db, a, db.core.rows[Key(AttendanceSessions, a.sessionId)], noted);
      }
    }
  }

  lemma NotedStorable(env: Env, rows: Rows, a: Action)
    requires ValidEnv(env) && a.body.SetRecordNote? && a.body.note.Some? && LoadRecord(rows, a).Found?
    ensures a.recordId.Some?
    ensures var row := LoadRecord(rows, a).row;
      var noted := NotedRecord(env, a, row);
      && row.body.Attendance? && row.body.sessionId == a.sessionId && Storable(env, noted)
      && Key(AttendanceRecords, a.recordId.value) in rows && rows[Key(AttendanceRecords, a.recordId.value)] == row
      && noted.createdAt == env.formatTime(row.createdAt)
      && noted.deletedAt == FormatOptional(env.formatTime, row.deletedAt)
      && noted.body.attendanceStatus == row.body.attendanceStatus
      && ToColumns(env, noted.body) == Some(Attendance(a.sessionId, row.body.studentId, row.body.attendanceStatus,
                                                       row.body.checkInAt, a.body.note.value))
  {
    var row := LoadRecord(rows, a).row;
    OptionalTimeRoundTrip(env, row.body.checkInAt);
    assert env.parseTime(env.formatTime(row.createdAt)) == Some(row.createdAt);
    if row.deletedAt.Some? {
      assert env.parseTime(env.formatTime(row.deletedAt.value)) == Some(row.deletedAt.value);
    }
  }

  /** Saving the noted record leaves the session row alone, and everything outside tables and log. */
  lemma NoteSaved(env: Env, db: Db, a: Action, noted: Record, now: Time, row: Row)
    requires noted.body.Attendance?
    requires Save(env, db, Upsert, noted.id, noted, now, Some(row)).Saved?
    ensures var after := Save(env, db, Upsert, noted.id, noted, now, Some(row)).db;
      && after == db.(core := after.core)
      && Lookup(after.core.rows, AttendanceSessions, a.sessionId)
           == Lookup(db.core.rows, AttendanceSessions, a.sessionId)
  {
    SaveEffect(env, db, Upsert, noted.id, noted, now, Some(row));
    WriteTouchesOne(env, db.core, Save(env, db, Upsert, noted.id, noted, now, Some(row)).record, now);
    hide Save, Write, Vetted;
  }

  // ----- create_session --------------------------------------------------------------

  /** The session of a create_session would be stored. */
  ghost predicate SessionAccepted(env: Env, rows: Rows, now: Time, a: Action, session: Record)
    requires session.body.Session?
  {
    && session.id == a.sessionId && session.body.clubId == a.clubId && !Live(rows, AttendanceSessions, a.sessionId)
    && FieldsValid(Upsert, session.body)
    && !ReopensLate(env, Upsert, session.body.status, now, Lookup(rows, AttendanceSessions, a.sessionId))
    && Live(rows, Clubs, a.clubId) && Storable(env, session)
  }

  /** A check before the first write refuses it. */
  ghost predicate SessionRefused(env: Env, rows: Rows, now: Time, a: Action, session: Record)
    requires session.body.Session?
  {
    || session.id != a.sessionId || session.body.clubId != a.clubId || Live(rows, AttendanceSessions, a.sessionId)
    || (FieldsValid(Upsert, session.body)
        && (ReopensLate(env, Upsert, session.body.status, now, Lookup(rows, AttendanceSessions, a.sessionId))
            || !Live(rows, Clubs, a.clubId)))
  }

  /** A record that can follow the session into the tables. */
  ghost predicate RecordFits(rows: Rows, session: Record, r: Record) {
    && r.body.Attendance? && r.body.sessionId == session.id && FieldsValid(Upsert, r.body)
    && session.deletedAt.None? && Live(rows, Students, r.body.studentId)
    && !AttendanceTaken(rows, session.id, r.body.studentId, r.id)
  }

  /** A record that is refused: it names another session, or is well-formed and does not fit. */
  ghost predicate RecordRefused(rows: Rows, session: Record, r: Record) {
    r.body.Attendance?
      && (r.body.sessionId != session.id || (FieldsValid(Upsert, r.body) && !RecordFits(rows, session, r)))
  }

  /** The first record that does not fit is one that is refused. */
  ghost predicate StopsAtRefusal(rows: Rows, session: Record, records: seq<Record>) {
    exists n | 0 <= n < |records| :: RecordRefused(rows, session, records[n]) && AllFit(rows, session, records[..n])
  }

  ghost predicate AllFit(rows: Rows, session: Record, records: seq<Record>) {
    forall r | r in records :: RecordFits(rows, session, r)
  }

  /** create_session, by what holds of the tables before it. It is reported after writing exactly if its session is
      accepted and one of its records is then refused; what it has written by then is the session, with one log row and
      one audit row. It is reported without a trace exactly if an earlier check refuses the session. It is performed
      only if all records fit. */
  lemma CreationOutcome(env: Env, caller: Caller, now: Time, db: Db, a: Action, session: Record, records: seq<Record>)
    requires ValidEnv(env) && Tagged(db.core.rows) && a.sessionId != ""
    requires session.body.Session? && forall r | r in records :: r.body.Attendance?
    ensures var rows := db.core.rows;
      var step := ApplyCreateSession(env, caller, now, db, a, session, records);
      && (step.Reported? && step.db != db <==>
            SessionAccepted(env, rows, now, a, session) && StopsAtRefusal(rows, session, records))
      && (step.Reported? && step.db == db <==> SessionRefused(env, rows, now, a, session))
      && (step.Reported? && step.db != db ==>
            && KeyOf(session) in step.db.core.rows
            && OneRowChanged(db.core, step.db.core, KeyOf(session), step.db.core.rows[KeyOf(session)])
            && step.db.core.rows[KeyOf(session)].body == ToColumns(env, session.body).value
            && step.db.processed == db.processed && step.db.counter == db.counter
            && db.audit <= step.db.audit && |step.db.audit| == |db.audit| + 1)
      && (step.Performed? ==> SessionAccepted(env, rows, now, a, session) && AllFit(rows, session, records))
      && (!step.ActionError? && SessionAccepted(env, rows, now, a, session) && AllFit(rows, session, records) ==>
            step.Performed?)
  {
    hide ValidEnv, Tagged, FieldsValid, ReopensLate, Storable, Save, CreateRecords, ActionAudit, StopsAtRefusal, AllFit,
      ToColumns;
    var rows := db.core.rows;
    var existing := Lookup(rows, AttendanceSessions, a.sessionId);
    if session.id == a.sessionId && session.body.clubId == a.clubId && !Live(rows, AttendanceSessions, a.sessionId) {
      SaveOutcome(env, db, Upsert, session, now, existing);
      assert ReferencesLive(rows, Upsert, session.body) <==> Live(rows, Clubs, a.clubId);
      assert ValueFree(env, rows, db.counter, Upsert, session.id, session.body);
      hide ReferencesLive, ValueFree, Live;
      if Save(env, db, Upsert, a.sessionId, session, now, existing).Saved? {
        var saving := Save(env, db, Upsert, a.sessionId, session, now, existing);
        var next :=
          saving.db.(audit :=
                     saving.db.audit + [ActionAudit(env, caller, a, session.body.clubId, existing, saving.record)]);
        SavedSession(env, db, session, now, existing);
        CreatedRecordsOutcome(env, now, rows, next, a, session, saving.record, records);
      }
    }
  }

  /** The session as it is stored: one row under its key, live unless its payload says otherwise. */
  lemma SavedSession(env: Env, db: Db, session: Record, now: Time, existing: Option<Row>)
    requires session.id != "" && session.body.Session?
    requires existing == Lookup(db.core.rows, AttendanceSessions, session.id)
    requires Save(env, db, Upsert, session.id, session, now, existing).Saved?
    ensures var after := Save(env, db, Upsert, session.id, session, now, existing).db;
      var key := KeyOf(session);
      && key == Key(AttendanceSessions, session.id) && key in after.core.rows
      && OneRowChanged(db.core, after.core, key, after.core.rows[key])
      && after == db.(core := after.core)
      && ToColumns(env, session.body).Some? && after.core.rows[key].body == ToColumns(env, session.body).value
      && (after.core.rows[key].deletedAt.None? <==> session.deletedAt.None?)
  {
    SaveEffect(env, db, Upsert, session.id, session, now, existing);
    WriteTouchesOne(env, db.core, Save(env, db, Upsert, session.id, session, now, existing).record, now);
    hide Save, Write, Vetted, ToColumns;
  }

  /** The records of a new session, by what held of the tables before the session was written. */
  lemma CreatedRecordsOutcome(env: Env, now: Time, rows: Rows, db: Db, a: Action, session: Record, saved: Record,
                              records: seq<Record>)
    requires a.sessionId != "" && session.id == a.sessionId && forall r | r in records :: r.body.Attendance?
    requires var key := Key(AttendanceSessions, a.sessionId);
      && key in db.core.rows && db.core.rows == rows[key := db.core.rows[key]]
      && (db.core.rows[key].deletedAt.None? <==> session.deletedAt.None?)
    ensures var step := CreateRecords(env, now, db, a, saved, records);
      && (step.Reported? <==> StopsAtRefusal(rows, session, records)) && (step.Reported? ==> step.db == db)
      && (step.Performed? ==> AllFit(rows, session, records))
      && (AllFit(rows, session, records) ==> !step.Reported?)
  {
    var own := OwnRecords(records, a.sessionId);
    OwnIsPrefix(records, a.sessionId);
    forall r: Record | r.body.Attendance? && r.body.sessionId == a.sessionId
      ensures Verdict(env, db.core.rows, rows, session, r, now)
    {
      RecordVerdict(env, db.core.rows, rows, session, r, now);
    }
    hide Verdict, WriteAll, RecordFits, RecordRefused;
    OwnOutcome(env, db.core.rows, rows, session, own, now);
    hide CanonicalizeAll, OwnRecords;
    OwnDecides(rows, session, records, |own|);
  }

  lemma {:induction false} OwnIsPrefix(records: seq<Record>, sessionId: string)
    requires forall r | r in records :: r.body.Attendance?
    ensures var own := OwnRecords(records, sessionId);
      && |own| <= |records| && own == records[..|own|]
      && (forall r | r in own :: r.body.Attendance? && r.body.sessionId == sessionId)
      && (|own| < |records| ==> records[|own|].body.sessionId != sessionId)
  {
    if records != [] && records[0].body.sessionId == sessionId {
      OwnIsPrefix(records[1..], sessionId);
      assert records == [records[0]] + records[1..];
    }
  }

  /** What canonicalization says of one record, once the session is written. */
  ghost predicate Verdict(env: Env, after: Rows, rows: Rows, session: Record, r: Record, now: Time) {
    var c := Canonicalize(env, after, 0, AttendanceRecords, Upsert, r.id, Decoded(r), now, None);
    && (c.Canonical? <==> RecordFits(rows, session, r))
    && (c.Rejected? <==> RecordRefused(rows, session, r))
  }

  lemma RecordVerdict(env: Env, after: Rows, rows: Rows, session: Record, r: Record, now: Time)
    requires r.body.Attendance? && r.body.sessionId == session.id
    requires var key := Key(AttendanceSessions, session.id);
      key in after && after == rows[key := after[key]] && (after[key].deletedAt.None? <==> session.deletedAt.None?)
    ensures Verdict(env, after, rows, session, r, now)
  {
    AcceptedExactly(env, after, 0, Upsert, r.id, r.body, now, None);
    assert AttendanceTaken(after, session.id, r.body.studentId, r.id) <==>
      AttendanceTaken(rows, session.id, r.body.studentId, r.id) by {
      forall k: Key | k.entity == AttendanceRecords
        ensures (k in after <==> k in rows) && (k in rows ==> after[k] == rows[k])
      {
      }
    }
    hide Vet, AttendanceTaken, IsAttendanceStatus;
  }

  /** The own records of the session: refused exactly if the first that does not fit is well-formed. */
  lemma {:induction false} OwnOutcome(env: Env, after: Rows, rows: Rows, session: Record, own: seq<Record>, now: Time)
    requires forall r | r in own :: r.body.Attendance? && Verdict(env, after, rows, session, r, now)
    ensures var all := CanonicalizeAll(env, after, Upsert, own, now);
      && (all.AllCanonical? <==> AllFit(rows, session, own))
      && (all.AllRefused? <==> StopsAtRefusal(rows, session, own))
  {
    hide Canonicalize, RecordFits, RecordRefused, StopsAtRefusal, AllFit;
    if own == [] {
      NothingStops(rows, session);
    } else {
      var n := |own| - 1;
      assert own == own[..n] + [own[n]];
      OwnOutcome(env, after, rows, session, own[..n], now);
      assert own[n] in own;
      StopsLater(rows, session, own);
    }
  }

  lemma NothingStops(rows: Rows, session: Record)
    ensures AllFit(rows, session, []) && !StopsAtRefusal(rows, session, [])
  {
  }

  /** One more record: the list stops at a refusal if it did before, or if all before fit and the new one is refused. */
  lemma StopsLater(rows: Rows, session: Record, own: seq<Record>)
    requires own != []
    ensures var n := |own| - 1;
      && (StopsAtRefusal(rows, session, own) <==>
            StopsAtRefusal(rows, session, own[..n])
              || (AllFit(rows, session, own[..n]) && RecordRefused(rows, session, own[n])))
      && (AllFit(rows, session, own) <==> AllFit(rows, session, own[..n]) && RecordFits(rows, session, own[n]))
  {
    hide RecordFits, RecordRefused;
    var n := |own| - 1;
    assert own == own[..n] + [own[n]];
    if m :| 0 <= m < |own| && RecordRefused(rows, session, own[m]) && AllFit(rows, session, own[..m]) {
      if m < n {
        assert own[..n][..m] == own[..m] && own[..n][m] == own[m];
      }
    }
    if m :| 0 <= m < n && RecordRefused(rows, session, own[..n][m]) && AllFit(rows, session, own[..n][..m]) {
      assert own[..n][..m] == own[..m];
      assert RecordRefused(rows, session, own[m]);
    }
  }

  /** Whether the list stops at a refusal is decided within the own records, or by the first foreign one after them. */
  lemma OwnDecides(rows: Rows, session: Record, records: seq<Record>, k: nat)
    requires k <= |records| && forall r | r in records :: r.body.Attendance?
    requires k < |records| ==> records[k].body.sessionId != session.id
    ensures StopsAtRefusal(rows, session, records) <==>
      StopsAtRefusal(rows, session, records[..k]) || (AllFit(rows, session, records[..k]) && k < |records|)
    ensures AllFit(rows, session, records) <==> AllFit(rows, session, records[..k]) && k == |records|
  {
    if k < |records| {
      assert records[k] in records;
      assert RecordRefused(rows, session, records[k]) && !RecordFits(rows, session, records[k]);
      forall m | k < m <= |records|
        ensures records[k] in records[..m]
      {
        assert records[..m][k] == records[k];
      }
    } else {
      assert records[..k] == records;
    }
    hide RecordFits, RecordRefused;
    if m :| 0 <= m < |records| && RecordRefused(rows, session, records[m]) && AllFit(rows, session, records[..m]) {
      if m < k {
        assert records[..k][..m] == records[..m] && records[..k][m] == records[m];
      }
    }
    if m :| 0 <= m < k && RecordRefused(rows, session, records[..k][m]) && AllFit(rows, session, records[..k][..m]) {
      assert records[..k][..m] == records[..m];
      assert RecordRefused(rows, session, records[m]);
    }
    assert forall r | r in records[..k] :: r in records;
  }

  // ----- conflicts that come too late -----------------------------------------------

  /** A tombstone for an attendance record is never refused. */
  lemma {:induction false} AttendanceDeletesAccepted(env: Env, rows: Rows, docs: seq<Record>, now: Time)
    requires forall i | 0 <= i < |docs| :: docs[i].body.Attendance?
    ensures !CanonicalizeAll(env, rows, Delete, docs, now).AllRefused?
  {
    if docs != [] {
      AttendanceDeletesAccepted(env, rows, docs[..|docs| - 1], now);
    }
  }

  /** A message whose student or club is no longer live. */
  ghost predicate Orphan<D, T>(rows: Rows, body: Body<D, T>) {
    body.Message? && (!Live(rows, Students, body.studentId) || !Live(rows, Clubs, body.clubId))
  }

  /** Deleting messages that decode is refused exactly when one of them is an orphan. */
  lemma {:induction false} MessageDeletes(env: Env, rows: Rows, docs: seq<Record>, now: Time)
    requires forall i | 0 <= i < |docs| :: docs[i].body.Message?
    requires !CanonicalizeAll(env, rows, Delete, docs, now).AllError?
    ensures CanonicalizeAll(env, rows, Delete, docs, now).AllRefused? <==> exists i | 0 <= i < |docs| ::
      Orphan(rows, docs[i].body)
    ensures CanonicalizeAll(env, rows, Delete, docs, now).AllRefused? ==>
      CanonicalizeAll(env, rows, Delete, docs, now).reason == ForeignKeyMissing
  {
    hide Canonicalize, Orphan;
    if docs != [] {
      var n := |docs| - 1;
      MessageDeletes(env, rows, docs[..n], now);
      MessageDelete(env, rows, docs[n], now);
      if i :| 0 <= i < |docs| && Orphan(rows, docs[i].body) {
        assert i < n ==> Orphan(rows, docs[..n][i].body);
      }
      if i :| 0 <= i < n && Orphan(rows, docs[..n][i].body) {
        assert Orphan(rows, docs[i].body);
      }
    }
  }

  lemma MessageDelete(env: Env, rows: Rows, doc: Record, now: Time)
    requires doc.body.Message?
    ensures var c := Canonicalize(env, rows, 0, StudentMessages, Delete, doc.id, Decoded(doc), now, None);
      c.Broken? || if Orphan(rows, doc.body) then c == Rejected(ForeignKeyMissing, 0) else c.Canonical?
  {
  }

  /** Some live message about the session is an orphan. */
  ghost predicate OrphanAbout(rows: Rows, sessionId: string) {
    exists id | id in SessionMessageIds(rows, sessionId) :: Orphan(rows, rows[Key(StudentMessages, id)].body)
  }

  lemma RecordDeletesNotRefused(env: Env, now: Time, db: Db, ids: set<string>)
    requires Tagged(db.core.rows)
    ensures !DeleteListed(env, now, db, AttendanceRecords, ids).Reported?
  {
    var order := env.listing(ids);
    if forall id | id in order :: Key(AttendanceRecords, id) in db.core.rows {
      var docs := ReadBack(env, db.core.rows, AttendanceRecords, order);
      forall i | 0 <= i < |docs|
        ensures docs[i].body.Attendance?
      {
        assert order[i] in order;
        assert EntityOf(db.core.rows[Key(AttendanceRecords, order[i])].body) == AttendanceRecords;
      }
      AttendanceDeletesAccepted(env, db.core.rows, docs, now);
    }
    hide CanonicalizeAll, WriteAll;
  }

  lemma MessageDeletesRefused(env: Env, now: Time, db: Db, sessionId: string)
    requires ValidEnv(env)
    requires !DeleteListed(env, now, db, StudentMessages, SessionMessageIds(db.core.rows, sessionId)).ActionError?
    ensures var step := DeleteListed(env, now, db, StudentMessages, SessionMessageIds(db.core.rows, sessionId));
      && (step.Reported? <==> OrphanAbout(db.core.rows, sessionId))
      && (step.Reported? ==> step.reason == ForeignKeyMissing)
  {
    var rows := db.core.rows;
    var ids := SessionMessageIds(rows, sessionId);
    var order := env.listing(ids);
    assert Lists(order, ids);
    assert forall i | 0 <= i < |order| :: order[i] in order;
    var docs := ReadBack(env, rows, StudentMessages, order);
    hide CanonicalizeAll, WriteAll, ValidEnv, FromRow, Orphan;
    forall i | 0 <= i < |docs|
      ensures docs[i].body.Message?
      ensures (Orphan(rows, docs[i].body) <==> Orphan(rows, rows[Key(StudentMessages, order[i])].body))
    {
      ReadBackOrphan(env, rows, order[i]);
    }
    hide ReadBack, SessionMessageIds;
    MessageDeletes(env, rows, docs, now);
    assert (exists i | 0 <= i < |docs| :: Orphan(rows, docs[i].body)) <==> OrphanAbout(rows, sessionId) by {
      OrphanListed(rows, ids, order);
    }
  }

  lemma OrphanListed(rows: Rows, ids: set<string>, order: seq<string>)
    requires Lists(order, ids) && forall id | id in ids :: Key(StudentMessages, id) in rows
    ensures (exists i | 0 <= i < |order| ::
             order[i] in ids && Orphan(rows, rows[Key(StudentMessages, order[i])].body)) <==>
      exists id | id in ids :: Orphan(rows, rows[Key(StudentMessages, id)].body)
  {
    hide Orphan;
    if id :| id in ids && Orphan(rows, rows[Key(StudentMessages, id)].body) {
      assert id in order;
      var i: nat :| i < |order| && order[i] == id;
    }
  }

  lemma ReadBackOrphan(env: Env, rows: Rows, id: string)
    requires Key(StudentMessages, id) in rows && rows[Key(StudentMessages, id)].body.Message?
    ensures var row := rows[Key(StudentMessages, id)];
      var doc := FromRow(env, id, row);
      doc.body.Message? && (Orphan(rows, doc.body) <==> Orphan(rows, row.body))
  {
    hide Live;
  }

  /** Students, clubs and messages are the same rows. */
  ghost predicate SameForOrphans(before: Rows, after: Rows) {
    forall k: Key | k.entity == Students || k.entity == Clubs || k.entity == StudentMessages ::
      (k in before <==> k in after) && (k in before ==> before[k] == after[k])
  }

  lemma OrphansUnchanged(before: Rows, after: Rows, sessionId: string)
    requires SameForOrphans(before, after)
    ensures OrphanAbout(before, sessionId) <==> OrphanAbout(after, sessionId)
  {
    forall id: string
      ensures id in SessionMessageIds(before, sessionId) <==> id in SessionMessageIds(after, sessionId)
    {
      assert Key(StudentMessages, id) in before <==> Key(StudentMessages, id) in after;
    }
    forall id | id in SessionMessageIds(before, sessionId)
      ensures Orphan(before, before[Key(StudentMessages, id)].body) <==>
        Orphan(after, after[Key(StudentMessages, id)].body)
    {
      assert before[Key(StudentMessages, id)] == after[Key(StudentMessages, id)];
    }
    hide Orphan;
  }

  /** When its session's row is already tombstoned, delete_session is reported exactly if some message is an orphan;
      the records are tombstoned by then. */
  lemma DeletePartsReported(env: Env, caller: Caller, now: Time, db: Db, a: Action, row: Row, saved: Record)
    requires ValidEnv(env) && Ready(env, db, now)
    requires !DeleteSessionRecords(env, caller, now, db, a, row, saved).ActionError?
    ensures var step := DeleteSessionRecords(env, caller, now, db, a, row, saved);
      && (step.Reported? <==> OrphanAbout(db.core.rows, a.sessionId))
      && (step.Reported? ==>
            && step.reason == ForeignKeyMissing
            && Tombstoned(env, db.core, step.db.core, AttendanceRecords, SessionRecordIds(db.core.rows, a.sessionId),
                          now))
  {
    ReadyIsTagged(env, db, now);
    hide Tombstone, DeleteListed, Progress, Invariant, NotAfter, Tagged, OrphanAbout, SessionRecordIds,
      SessionMessageIds;
    var records := SessionRecordIds(db.core.rows, a.sessionId);
    RecordDeletesNotRefused(env, now, db, records);
    var first := DeleteListed(env, now, db, AttendanceRecords, records);
    DeleteListedEffect(env, now, db, AttendanceRecords, records);
    RecordsAreNotOrphans(env, db.core, first.db.core, records, now);
    OrphansUnchanged(db.core.rows, first.db.core.rows, a.sessionId);
    hide TombstonedLog, TombstonedRows;
    MessageDeletesRefused(env, now, first.db, a.sessionId);
  }

  lemma RecordsAreNotOrphans(env: Env, before: Core, after: Core, records: set<string>, now: Time)
    requires Tombstoned(env, before, after, AttendanceRecords, records, now)
    ensures SameForOrphans(before.rows, after.rows)
  {
    hide Tombstone, TombstonedLog;
    forall k: Key | k.entity == Students || k.entity == Clubs || k.entity == StudentMessages
      ensures (k in before.rows <==> k in after.rows) && (k in before.rows ==> before.rows[k] == after.rows[k])
    {
      assert k !in KeysIn(AttendanceRecords, records);
    }
  }

  // ----- a delete does not fail -------------------------------------------------------

  /** A stored value from a closed vocabulary is one of its words. */
  ghost predicate Worded(body: Columns) {
    match body
    case Session(_, _, status, _) => status == "draft" || status == "completed"
    case Attendance(_, _, status, _, _) => IsAttendanceStatus(status)
    case Message(_, _, kind, _, _, _, _, _, _, _) => kind == "manual" || kind == "attendance_note"
    case _ => true
  }

  /** That holds of a session's records and of the live messages about it. */
  ghost predicate WordedParts(rows: Rows, sessionId: string) {
    && (forall id | id in SessionRecordIds(rows, sessionId) :: Worded(rows[Key(AttendanceRecords, id)].body))
    && (forall id | id in SessionMessageIds(rows, sessionId) :: Worded(rows[Key(StudentMessages, id)].body))
  }

  /** The tombstone of a worded row can be canonicalized. */
  lemma TombstoneNotBroken(env: Env, core: Core, entity: EntityName, id: string, now: Time)
    requires Invariant(env, core) && (entity == AttendanceRecords || entity == StudentMessages)
    requires Key(entity, id) in core.rows && Worded(core.rows[Key(entity, id)].body)
    ensures var doc := FromRow(env, id, core.rows[Key(entity, id)]);
      && EntityOf(doc.body) == entity && doc.id == id
      && !Canonicalize(env, core.rows, 0, EntityOf(doc.body), Delete, doc.id, Decoded(doc), now, None).Broken?
  {
    hide Invariant, Canonicalize, Worded, IsAttendanceStatus;
    var row := core.rows[Key(entity, id)];
    ReferencesNamed(env, core, Key(entity, id));
    RenderedValid(env, id, row);
    DeleteNotBroken(env, core.rows, FromRow(env, id, row), now);
  }

  lemma RenderedValid(env: Env, id: string, row: Row)
    requires Worded(row.body) && (row.body.Attendance? || row.body.Message?)
    requires row.body.Attendance? ==> row.body.sessionId != "" && row.body.studentId != ""
    requires row.body.Message? ==> row.body.studentId != "" && row.body.clubId != ""
    ensures FieldsValid(Delete, FromRow(env, id, row).body)
    ensures FromRow(env, id, row).id == id && EntityOf(FromRow(env, id, row).body) == EntityOf(row.body)
  {
    hide IsAttendanceStatus, TrimSpace;
  }

  /** Deleting a record or message with valid fields is accepted or refused. */
  lemma DeleteNotBroken(env: Env, rows: Rows, doc: Record, now: Time)
    requires (doc.body.Attendance? || doc.body.Message?) && FieldsValid(Delete, doc.body)
    ensures !Canonicalize(env, rows, 0, EntityOf(doc.body), Delete, doc.id, Decoded(doc), now, None).Broken?
  {
    hide Live, IsAttendanceStatus, TrimSpace, Stamp;
  }

  /** What a record or a message refers to has a name. */
  lemma ReferencesNamed(env: Env, core: Core, k: Key)
    requires Invariant(env, core) && k in core.rows
    ensures var body := core.rows[k].body;
      && EntityOf(body) == k.entity
      && (body.Attendance? ==> body.sessionId != "" && body.studentId != "")
      && (body.Message? ==> body.studentId != "" && body.clubId != "")
      && (body.Session? ==> body.clubId != "")
  {
    hide Indexed, GroupsDistinct, LogOrdered, AllStored, Replay;
    assert ForeignKeysHold(env.users, core.rows, core.rows[k].body);
  }

  lemma {:induction false} TombstonesNotBroken(env: Env, core: Core, entity: EntityName, ids: seq<string>, now: Time)
    requires Invariant(env, core) && (entity == AttendanceRecords || entity == StudentMessages)
    requires forall id | id in ids :: Key(entity, id) in core.rows && Worded(core.rows[Key(entity, id)].body)
    ensures !CanonicalizeAll(env, core.rows, Delete, ReadBack(env, core.rows, entity, ids), now).AllError?
  {
    hide Invariant, Canonicalize, FromRow, Worded, EntityOf;
    if ids != [] {
      var n := |ids| - 1;
      assert forall id | id in ids[..n] :: id in ids;
      TombstonesNotBroken(env, core, entity, ids[..n], now);
      assert ids[n] in ids;
      TombstoneNotBroken(env, core, entity, ids[n], now);
      var docs := ReadBack(env, core.rows, entity, ids);
      assert docs[..n] == ReadBack(env, core.rows, entity, ids[..n]);
    }
  }

  /** A deleted record or message is in nobody's way, so only its references could stop it. */
  lemma {:induction false} TombstonesWritten(env: Env, core: Core, recs: seq<Record>, now: Time)
    requires forall r | r in recs :: TombstoneFor(env, core.rows, r)
    ensures WriteAll(env, core, recs, now).Some?
  {
    hide TombstoneFor, Write;
    if recs != [] {
      var n := |recs| - 1;
      TombstonesWritten(env, core, recs[..n], now);
      WriteAllEffect(env, core, recs[..n], now);
      assert recs[n] in recs;
      TombstoneWritten(env, core.rows, WriteAll(env, core, recs[..n], now).value, recs[n], now);
    }
  }

  ghost predicate TombstoneFor(env: Env, rows: Rows, rec: Record) {
    && ToRow(env, rec).Some?
    && (ToRow(env, rec).value.body.Attendance? || ToRow(env, rec).value.body.Message?)
    && ToRow(env, rec).value.deletedAt.Some?
    && ForeignKeysHold(env.users, rows, ToRow(env, rec).value.body)
  }

  lemma TombstoneWritten(env: Env, rows: Rows, core: Core, rec: Record, now: Time)
    requires TombstoneFor(env, rows, rec) && rows.Keys <= core.rows.Keys
    ensures Write(env, core, rec, now).Some?
  {
    hide ToRow, ForeignKeysHold;
    var row := ToRow(env, rec).value;
    ReferencesSurvive(env.users, rows, core.rows, row.body);
    forall k | k in core.rows
      ensures !Collides(row, core.rows[k])
    {
    }
    hide Collides;
  }

  lemma TombstoneRefers(env: Env, rows: Rows, rec: Record, row: Row, now: Time)
    requires ToRow(env, rec) == Some(Tombstone(row, now)) && (row.body.Attendance? || row.body.Message?)
    requires ForeignKeysHold(env.users, rows, row.body)
    ensures TombstoneFor(env, rows, rec)
  {
    hide ToRow, TrimSpace;
  }

  /** Deleting listed rows whose values are worded does not fail. */
  lemma DeleteListedSucceeds(env: Env, now: Time, db: Db, entity: EntityName, ids: set<string>)
    requires ValidEnv(env) && Ready(env, db, now) && (entity == AttendanceRecords || entity == StudentMessages)
    requires forall id | id in ids :: Key(entity, id) in db.core.rows && Worded(db.core.rows[Key(entity, id)].body)
    ensures !DeleteListed(env, now, db, entity, ids).ActionError?
  {
    hide Ready, Invariant, NotAfter, Worded, Tagged, Referenced, ValidEnv, CanonicalizeAll, WriteAll;
    ReadyIsReferenced(env, db, now);
    var order := env.listing(ids);
    ListingLists(env, ids);
    TombstonesNotBroken(env, db.core, entity, order, now);
    if CanonicalizeAll(env, db.core.rows, Delete, ReadBack(env, db.core.rows, entity, order), now).AllCanonical? {
      CanonicalTombstones(env, db.core, entity, order, now);
    }
  }

  lemma CanonicalTombstones(env: Env, core: Core, entity: EntityName, order: seq<string>, now: Time)
    requires ValidEnv(env) && Tagged(core.rows) && Referenced(env, core)
    requires entity == AttendanceRecords || entity == StudentMessages
    requires forall id | id in order :: Key(entity, id) in core.rows
    requires CanonicalizeAll(env, core.rows, Delete, ReadBack(env, core.rows, entity, order), now).AllCanonical?
    ensures WriteAll(env, core, CanonicalizeAll(env, core.rows, Delete, ReadBack(env, core.rows, entity, order),
                                                now).records, now).Some?
  {
    hide Tagged, Referenced, ValidEnv, Tombstone, CanonicalizeAll, ToRow, TombstoneFor, WriteAll, EntityOf, ReadBack;
    DeletedRecords(env, core.rows, entity, order, now);
    var recs := CanonicalizeAll(env, core.rows, Delete, ReadBack(env, core.rows, entity, order), now).records;
    forall r | r in recs
      ensures TombstoneFor(env, core.rows, r)
    {
      var i :| 0 <= i < |recs| && recs[i] == r;
      assert order[i] in order;
      StoredRefers(env, core, entity, order[i]);
      TombstoneRefers(env, core.rows, r, core.rows[Key(entity, order[i])], now);
    }
    TombstonesWritten(env, core, recs, now);
  }

  lemma ReadyIsReferenced(env: Env, db: Db, now: Time)
    requires Ready(env, db, now)
    ensures Invariant(env, db.core) && Tagged(db.core.rows) && Referenced(env, db.core)
  {
  }

  lemma StoredRefers(env: Env, core: Core, entity: EntityName, id: string)
    requires Tagged(core.rows) && Referenced(env, core) && (entity == AttendanceRecords || entity == StudentMessages)
    requires Key(entity, id) in core.rows
    ensures var row := core.rows[Key(entity, id)];
      (row.body.Attendance? || row.body.Message?) && ForeignKeysHold(env.users, core.rows, row.body)
  {
    assert EntityOf(core.rows[Key(entity, id)].body) == entity;
    hide ForeignKeysHold;
  }

  lemma DeletePartsSucceed(env: Env, caller: Caller, now: Time, db: Db, a: Action, row: Row, saved: Record)
    requires ValidEnv(env) && Ready(env, db, now) && WordedParts(db.core.rows, a.sessionId)
    ensures !DeleteSessionRecords(env, caller, now, db, a, row, saved).ActionError?
  {
    var records := SessionRecordIds(db.core.rows, a.sessionId);
    ReadyIsReferenced(env, db, now);
    RecordsListed(db.core.rows, a.sessionId);
    hide Ready, Invariant, NotAfter, Worded, Tagged, Referenced, Tombstone, DeleteListed, Progress, SessionRecordIds,
      SessionMessageIds, ActionAudit, ValidEnv;
    DeleteListedSucceeds(env, now, db, AttendanceRecords, records);
    var first := DeleteListed(env, now, db, AttendanceRecords, records);
    if first.Performed? {
      DeleteListedEffect(env, now, db, AttendanceRecords, records);
      DeleteListedProgress(env, now, db, AttendanceRecords, records);
      ProgressKeepsReady(env, db, first.db, now);
      MessagesStayWorded(env, db.core, first.db.core, a.sessionId, records, now);
      DeleteListedSucceeds(env, now, first.db, StudentMessages, SessionMessageIds(first.db.core.rows, a.sessionId));
    }
  }

  lemma RecordsListed(rows: Rows, sessionId: string)
    ensures forall id | id in SessionRecordIds(rows, sessionId) :: Key(AttendanceRecords, id) in rows
    ensures forall id | id in SessionMessageIds(rows, sessionId) :: Key(StudentMessages, id) in rows
  {
  }

  /** Deleting records leaves the messages as they were. */
  lemma MessagesStayWorded(env: Env, before: Core, after: Core, sessionId: string, records: set<string>, now: Time)
    requires Tombstoned(env, before, after, AttendanceRecords, records, now) && WordedParts(before.rows, sessionId)
    ensures forall id | id in SessionMessageIds(after.rows, sessionId) ::
      Key(StudentMessages, id) in after.rows && Worded(after.rows[Key(StudentMessages, id)].body)
  {
    RecordsAreNotOrphans(env, before, after, records, now);
    hide Tombstoned, Worded;
    forall id | id in SessionMessageIds(after.rows, sessionId)
      ensures Key(StudentMessages, id) in before.rows && id in SessionMessageIds(before.rows, sessionId)
        && after.rows[Key(StudentMessages, id)] == before.rows[Key(StudentMessages, id)]
    {
      assert Key(StudentMessages, id) in after.rows;
    }
  }

  /** delete_session on a session that is found and whose stored values are worded, exactly: it fails if its payload
      does not decode, is reported without a trace when the club is not live, is reported after it wrote when some live
      message about the session belongs to a student or a club that is not live, and is performed otherwise. */
  lemma DeleteOutcome(env: Env, caller: Caller, now: Time, db: Db, a: Action)
    requires ValidEnv(env) && Ready(env, db, now) && a.sessionId != "" && a.body.DeleteSession?
    requires LoadSession(db.core.rows, a).Found? && Worded(LoadSession(db.core.rows, a).row.body)
    requires WordedParts(db.core.rows, a.sessionId)
    ensures var step := ApplyDeleteSession(env, caller, now, db, a);
      var key := Key(AttendanceSessions, a.sessionId);
      if !a.body.decodes then step == ActionError
      else if !Live(db.core.rows, Clubs, a.clubId) then step == Reported(db, ForeignKeyMissing)
      else if OrphanAbout(db.core.rows, a.sessionId) then
        && step.Reported? && step.reason == ForeignKeyMissing
        && key in step.db.core.rows && step.db.core.rows[key] == Tombstone(db.core.rows[key], now)
        && |step.db.core.log| > |db.core.log|
      else step.Performed?
  {
    hide Save, Ready, Invariant, NotAfter, Tombstone, DeleteSessionRecords, FromRow, OrphanAbout, SessionRecordIds,
      LoadSession, Live, Worded, WordedParts, Tagged, Referenced, ValidEnv, ActionAudit;
    var row := LoadSession(db.core.rows, a).row;
    var doc := FromRow(env, a.sessionId, row);
    ReadyIsReferenced(env, db, now);
    SessionDeletable(env, db, a, now);
    if a.body.decodes && Live(db.core.rows, Clubs, a.clubId) {
      var Saved(db1, saved) := Save(env, db, Delete, a.sessionId, doc, now, Some(row));
      DeleteGoesOn(env, caller, now, db, db1, a, row, saved);
    }
  }

  /** After the session's own tombstone. */
  lemma DeleteGoesOn(env: Env, caller: Caller, now: Time, db: Db, db1: Db, a: Action, row: Row, saved: Record)
    requires ValidEnv(env) && Ready(env, db, now) && a.sessionId != "" && a.body.DeleteSession?
    requires LoadSession(db.core.rows, a) == Found(row) && WordedParts(db.core.rows, a.sessionId)
    requires Save(env, db, Delete, a.sessionId, FromRow(env, a.sessionId, row), now, Some(row)) == Saved(db1, saved)
    ensures var step := DeleteSessionRecords(env, caller, now, db1, a, row, saved);
      var key := Key(AttendanceSessions, a.sessionId);
      if OrphanAbout(db.core.rows, a.sessionId) then
        && step.Reported? && step.reason == ForeignKeyMissing
        && key in step.db.core.rows && step.db.core.rows[key] == Tombstone(row, now)
        && |step.db.core.log| > |db.core.log|
      else step.Performed?
  {
    hide Save, Invariant, NotAfter, Tombstone, DeleteSessionRecords, FromRow, OrphanAbout, WordedParts, ValidEnv,
      Tagged, LoadSession;
    ReadyIsReferenced(env, db, now);
    SessionTombstone(env, now, db, a, row);
    SessionTombstoneReady(env, now, db, a, row);
    PartsStayWorded(db.core.rows, db1.core.rows, a.sessionId, Tombstone(row, now));
    DeletePartsSucceed(env, caller, now, db1, a, row, saved);
    DeletedSessionReported(env, caller, now, db.core, db1, a, row, saved);
  }

  /** The session's own tombstone is refused exactly if its club is not live, and otherwise goes through. */
  lemma SessionDeletable(env: Env, db: Db, a: Action, now: Time)
    requires ValidEnv(env) && Invariant(env, db.core) && a.body.DeleteSession?
    requires LoadSession(db.core.rows, a).Found? && Worded(LoadSession(db.core.rows, a).row.body)
    ensures var row := LoadSession(db.core.rows, a).row;
      var saving := Save(env, db, Delete, a.sessionId, FromRow(env, a.sessionId, row), now, Some(row));
      && Lookup(db.core.rows, AttendanceSessions, a.sessionId) == Some(row)
      && if Live(db.core.rows, Clubs, a.clubId) then saving.Saved? else saving == SaveRefused(ForeignKeyMissing)
  {
    var row := LoadSession(db.core.rows, a).row;
    var doc := FromRow(env, a.sessionId, row);
    ReferencesNamed(env, db.core, Key(AttendanceSessions, a.sessionId));
    FormattedNotEmpty(env, 0, row.body.sessionDate);
    assert Storable(env, doc) by {
      ReadBackRoundTrip(env, a.sessionId, row);
      ColumnsRoundTrip(env, row.body);
      assert env.parseTime(env.formatTime(row.createdAt)) == Some(row.createdAt);
      if row.deletedAt.Some? {
        assert env.parseTime(env.formatTime(row.deletedAt.value)) == Some(row.deletedAt.value);
      }
    }
    SaveOutcome(env, db, Delete, doc, now, Some(row));
    hide Save, Storable, Live, Invariant;
  }

  lemma PartsStayWorded(before: Rows, after: Rows, sessionId: string, row: Row)
    requires after == before[Key(AttendanceSessions, sessionId) := row] && WordedParts(before, sessionId)
    ensures WordedParts(after, sessionId)
  {
    hide Worded;
    forall k: Key | k.entity == AttendanceRecords || k.entity == StudentMessages
      ensures (k in after <==> k in before) && (k in before ==> after[k] == before[k])
    {
    }
    assert forall id | id in SessionRecordIds(after, sessionId) :: id in SessionRecordIds(before, sessionId);
    assert forall id | id in SessionMessageIds(after, sessionId) :: id in SessionMessageIds(before, sessionId);
  }

  lemma DeletedSessionReported(env: Env, caller: Caller, now: Time, c0: Core, db1: Db, a: Action, row: Row,
                               saved: Record)
    requires ValidEnv(env) && Ready(env, db1, now)
    requires db1.core.rows == c0.rows[Key(AttendanceSessions, a.sessionId) := Tombstone(row, now)]
    requires |db1.core.log| == |c0.log| + 1
    requires !DeleteSessionRecords(env, caller, now, db1, a, row, saved).ActionError?
    ensures var step := DeleteSessionRecords(env, caller, now, db1, a, row, saved);
      var key := Key(AttendanceSessions, a.sessionId);
      if OrphanAbout(c0.rows, a.sessionId) then
        && step.Reported? && step.reason == ForeignKeyMissing
        && key in step.db.core.rows && step.db.core.rows[key] == Tombstone(row, now)
        && |step.db.core.log| > |c0.log|
      else step.Performed?
  {
    hide Invariant, NotAfter, Tombstone, DeleteSessionRecords, OrphanAbout, SessionRecordIds, Tombstoned, ValidEnv;
    OrphansUnchanged(c0.rows, db1.core.rows, a.sessionId);
    DeletePartsReported(env, caller, now, db1, a, row, saved);
    var step := DeleteSessionRecords(env, caller, now, db1, a, row, saved);
    if step.Reported? {
      SessionKeptByRecords(env, db1.core, step.db.core, SessionRecordIds(db1.core.rows, a.sessionId), a.sessionId, now);
    }
  }

  lemma SessionKeptByRecords(env: Env, before: Core, after: Core, records: set<string>, sessionId: string, now: Time)
    requires Tombstoned(env, before, after, AttendanceRecords, records, now)
    requires Key(AttendanceSessions, sessionId) in before.rows
    ensures Key(AttendanceSessions, sessionId) in after.rows
    ensures after.rows[Key(AttendanceSessions, sessionId)] == before.rows[Key(AttendanceSessions, sessionId)]
    ensures |after.log| >= |before.log|
  {
    hide Tombstone;
    assert Key(AttendanceSessions, sessionId) !in KeysIn(AttendanceRecords, records);
  }

  // ----- inputs that show it -----------------------------------------------------------

  /** The small club as a whole database. */
  function SampleDb(core: Core): Db {
    Db(core, {}, 0, [])
  }

  /** A well-formed action of the sample club. */
  function SampleAction(env: Env, at: Time, sessionId: string, body: ActionBody): Action {
    Action("a", "c", sessionId, Some("r"), Some("s"), env.formatTime(at), body)
  }

  lemma SampleActionWellFormed(env: Env, at: Time, sessionId: string, body: ActionBody)
    requires ValidEnv(env) && sessionId != "" && !body.OtherAction?
    ensures WellFormedAction(env, SampleAction(env, at, sessionId, body))
  {
    FormattedNotEmpty(env, at, 0);
    assert env.parseTime(env.formatTime(at)) == Some(at);
  }

  /** A note is stored and then refused: on the sample club, whose session, student and record are all live. */
  lemma NoteKeptThoughRefused(env: Env, caller: Caller, at: Time, now: Time) returns (db: Db, a: Action)
    requires ValidEnv(env)
    ensures Reachable(env, db.core) && WellFormedAction(env, a) && a.body.SetRecordNote?
    ensures var step := ApplySetRecordNote(env, caller, now, db, a);
      && step.Reported? && step.reason == ValidationFailed
      && ATTENDANCE in step.db.core.rows
      && step.db.core.rows[ATTENDANCE].body == Attendance("x", "s", "present", None, Some("late"))
      && ATTENDANCE in db.core.rows && db.core.rows[ATTENDANCE].body == Attendance("x", "s", "present", None, None)
  {
    hide ApplySetRecordNote, Reachable, Invariant, NotAfter, ValidEnv, Tagged, LoadRecord, AttendanceTaken, BlankNote,
      Live;
    var core := SampleReachable(env, at, false);
    db, a := SampleDb(core), SampleAction(env, at, "x", SetRecordNote(Some(Some("late"))));
    SampleActionWellFormed(env, at, "x", a.body);
    SampleNoted(env, at, a);
    LateIsNotBlank();
    NonBlankNoteOutcome(env, caller, now, db, a);
  }

  lemma SampleNoted(env: Env, at: Time, a: Action)
    requires a == SampleAction(env, at, "x", SetRecordNote(Some(Some("late"))))
    ensures var rows := SampleRows(at, false);
      && ATTENDANCE in rows && rows[ATTENDANCE] == LiveRow(at, SampleAttendance())
      && LoadRecord(rows, a) == Found(LiveRow(at, SampleAttendance())) && !AttendanceTaken(rows, "x", "s", "r")
      && Live(rows, AttendanceSessions, "x") && Live(rows, Students, "s")
  {
  }

  lemma LateIsNotBlank()
    ensures !BlankNote(Some("late"))
  {
  }

  /** A session is stored and then refused: its only record is about a student deleted since. */
  lemma SessionKeptThoughRefused(env: Env, caller: Caller, at: Time, now: Time)
      returns (db: Db, a: Action, session: Record, records: seq<Record>)
    requires ValidEnv(env)
    ensures Reachable(env, db.core) && WellFormedAction(env, a) && a.body == CreateSession(Some((session, records)))
    ensures session.body.Session? && |records| == 1
    ensures var step := ApplyCreateSession(env, caller, now, db, a, session, records);
      && step.Reported? && |step.db.core.log| == |db.core.log| + 1
      && Key(AttendanceSessions, "y") !in db.core.rows && Key(AttendanceSessions, "y") in step.db.core.rows
  {
    hide ApplyCreateSession, Reachable, Invariant, NotAfter, ValidEnv, Tagged, StopsAtRefusal, SessionAccepted,
      SessionRefused, AllFit;
    var core := SampleReachable(env, at, true);
    session := Record("y", "", "", "", "", None, Session("c", env.formatDate(DateOf(at)), "draft", None));
    records := [Record("q", "", "", "", "", None, Attendance("y", "s", "present", None, None))];
    db, a := SampleDb(core), SampleAction(env, at, "y", CreateSession(Some((session, records))));
    SampleActionWellFormed(env, at, "y", a.body);
    SampleSessionAccepted(env, at, now, a, session);
    SampleRecordRefused(at, session, records);
    CreationOutcome(env, caller, now, db, a, session, records);
  }

  lemma SampleSessionAccepted(env: Env, at: Time, now: Time, a: Action, session: Record)
    requires ValidEnv(env) && a.sessionId == "y" && a.clubId == "c"
    requires session == Record("y", "", "", "", "", None, Session("c", env.formatDate(DateOf(at)), "draft", None))
    ensures SessionAccepted(env, SampleRows(at, true), now, a, session)
  {
    FormattedNotEmpty(env, at, DateOf(at));
    assert env.parseDate(env.formatDate(DateOf(at))) == Some(DateOf(at));
  }

  lemma SampleRecordRefused(at: Time, session: Record, records: seq<Record>)
    requires session.id == "y"
    requires records == [Record("q", "", "", "", "", None, Attendance("y", "s", "present", None, None))]
    ensures StopsAtRefusal(SampleRows(at, true), session, records)
  {
    var rows := SampleRows(at, true);
    assert !Live(rows, Students, "s") by {
      assert rows[STUDENT].deletedAt == Some(at);
    }
    hide Live;
    assert RecordRefused(rows, session, records[0]) && AllFit(rows, session, records[..0]);
  }

  /** A delete is refused after it wrote: a live message about the session belongs to a student deleted since. */
  lemma DeleteStopsHalfway(env: Env, caller: Caller, at: Time, now: Time) returns (db: Db, a: Action)
    requires ValidEnv(env) && at <= now
    ensures Reachable(env, db.core) && WellFormedAction(env, a) && a.body == DeleteSession(true)
    ensures var step := ApplyDeleteSession(env, caller, now, db, a);
      && step.Reported? && step.reason == ForeignKeyMissing
      && SESSION in db.core.rows && db.core.rows[SESSION].deletedAt.None?
      && SESSION in step.db.core.rows && step.db.core.rows[SESSION].deletedAt == Some(now)
  {
    hide ApplyDeleteSession, Reachable, Invariant, NotAfter, OrphanAbout, WordedParts, Live, LoadSession, ValidEnv;
    var core := SampleReachable(env, at, true);
    db, a := SampleDb(core), SampleAction(env, at, "x", DeleteSession(true));
    SampleActionWellFormed(env, at, "x", a.body);
    LaterStill(core, at, now);
    SampleOrphan(at);
    SampleTarget(env, at);
    DeleteOutcome(env, caller, now, db, a);
  }

  lemma LaterStill(core: Core, at: Time, now: Time)
    requires NotAfter(core, at) && at <= now
    ensures NotAfter(core, now)
  {
  }

  lemma SampleTarget(env: Env, at: Time)
    ensures LoadSession(SampleRows(at, true), SampleAction(env, at, "x", DeleteSession(true)))
      == Found(LiveRow(at, SampleSession(at)))
    ensures Live(SampleRows(at, true), Clubs, "c")
  {
  }

  lemma SampleOrphan(at: Time)
    ensures OrphanAbout(SampleRows(at, true), "x") && WordedParts(SampleRows(at, true), "x")
  {
    var rows := SampleRows(at, true);
    assert MESSAGE in rows && rows[MESSAGE].body == SampleMessage();
    assert !Live(rows, Students, "s") by {
      assert rows[STUDENT].deletedAt == Some(at);
    }
    assert "m" in SessionMessageIds(rows, "x");
    hide Live;
    assert Orphan(rows, rows[Key(StudentMessages, "m")].body);
  }
}
