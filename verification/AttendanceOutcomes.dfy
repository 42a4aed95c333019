/** How each attendance action ends, by what the database holds before it. */
module AttendanceOutcomes {
  import opened Text
  import opened Records
  import opened Tables
  import opened Lookups
  import opened History
  import opened Authorization
  import opened Canonical
  import opened CanonicalProofs
  import opened PushSpec
  import opened AttendanceSpec
  import opened AttendanceProofs
  import opened AttendanceResults
  import opened AttendanceConflicts

  // ----- targets ------------------------------------------------------------------------

  /** The session an action addresses: found if it is stored, deleted or not, in the club the action names. */
  lemma SessionTargetExactly(rows: Rows, a: Action)
    requires Tagged(rows)
    ensures var target := LoadSession(rows, a);
      var key := Key(AttendanceSessions, a.sessionId);
      if key !in rows then target == TargetConflict(ForeignKeyMissing)
      else if rows[key].body.clubId != a.clubId then target == TargetConflict(NoPermission)
      else target == Found(rows[key])
  {
    if Key(AttendanceSessions, a.sessionId) in rows {
      assert EntityOf(rows[Key(AttendanceSessions, a.sessionId)].body) == AttendanceSessions;
    }
  }

  /** The record an action addresses: found if it is stored for the session and student the action names, and the
      session is found. */
  lemma RecordTargetExactly(rows: Rows, a: Action)
    requires Tagged(rows)
    ensures var target := LoadRecord(rows, a);
      if Blank(a.recordId) || Blank(a.studentId) then target == TargetError
      else
        var key, session := Key(AttendanceRecords, a.recordId.value), Key(AttendanceSessions, a.sessionId);
        if key !in rows then target == TargetConflict(ForeignKeyMissing)
        else if rows[key].body.sessionId != a.sessionId || rows[key].body.studentId != a.studentId.value then
          target == TargetConflict(ValidationFailed)
        else if session !in rows then target == TargetConflict(ForeignKeyMissing)
        else if rows[session].body.clubId != a.clubId then target == TargetConflict(NoPermission)
        else target == Found(rows[key])
  {
    SessionTargetExactly(rows, a);
    if !Blank(a.recordId) && Key(AttendanceRecords, a.recordId.value) in rows {
      assert EntityOf(rows[Key(AttendanceRecords, a.recordId.value)].body) == AttendanceRecords;
    }
  }

  // ----- audit rows -----------------------------------------------------------------------

  /** The one audit row of an action: who did what to which row, and the row before and after it up to created_at. */
  ghost predicate AuditTells(env: Env, caller: Caller, a: Action, action: string, key: Key, before: Option<Row>,
                             after: Row, entry: AuditRow) {
    && entry.actor == caller.userId && entry.club == Some(a.clubId) && entry.reference == a.actionId
    && entry.entity == key.entity && entry.entityId == Some(key.id) && entry.action == action
    && entry.oldValue.Some? == before.Some?
    && (before.Some? ==> ToRow(env, entry.oldValue.value) == before)
    && (if a.body.DeleteSession? then entry.newValue.None?
        else
          && entry.newValue.Some? && ToRow(env, entry.newValue.value).Some?
          && ToRow(env, entry.newValue.value).value.(createdAt := after.createdAt) == after)
  }

  lemma SavedAudit(env: Env, caller: Caller, db: Db, a: Action, doc: Record, row: Row, now: Time)
    requires ValidEnv(env) && (doc.body.Session? || doc.body.Attendance?) && doc.id != ""
    requires KeyOf(doc) in db.core.rows && db.core.rows[KeyOf(doc)] == row && EntityOf(row.body) == EntityOf(doc.body)
    requires Save(env, db, Upsert, doc.id, doc, now, Some(row)).Saved? && !a.body.DeleteSession?
    ensures var Saved(after, rec) := Save(env, db, Upsert, doc.id, doc, now, Some(row));
      KeyOf(doc) in after.core.rows
      && AuditTells(env, caller, a, ActionAuditName(a.body), KeyOf(doc), Some(row), after.core.rows[KeyOf(doc)],
                    ActionAudit(env, caller, a, a.clubId, Some(row), rec))
  {
    hide Save, Write, Vetted, ToRow, FromRow, ValidEnv, ActionAuditName;
    var Saved(after, rec) := Save(env, db, Upsert, doc.id, doc, now, Some(row));
    SaveEffect(env, db, Upsert, doc.id, doc, now, Some(row));
    WriteTouchesOne(env, db.core, rec, now);
    ReadBackRoundTrip(env, doc.id, row);
  }

  /** Saving an attendance record that names session and student, by what the tables hold. */
  lemma RecordSaved(env: Env, db: Db, doc: Record, now: Time, row: Row)
    requires ValidEnv(env) && Tagged(db.core.rows) && doc.body.Attendance?
    requires doc.body.sessionId != "" && doc.body.studentId != ""
    ensures var rows, body := db.core.rows, doc.body;
      var saving := Save(env, db, Upsert, doc.id, doc, now, Some(row));
      if !IsAttendanceStatus(body.attendanceStatus) then saving == SaveError
      else if !Live(rows, AttendanceSessions, body.sessionId) || !Live(rows, Students, body.studentId) then
        saving == SaveRefused(ForeignKeyMissing)
      else if AttendanceTaken(rows, body.sessionId, body.studentId, doc.id) then saving == SaveRefused(DuplicateValue)
      else if Storable(env, doc) then saving.Saved? else saving == SaveError
  {
    hide Save, Storable, AttendanceTaken, Live, IsAttendanceStatus, Tagged, ValidEnv, ReopensLate;
    SaveOutcome(env, db, Upsert, doc, now, Some(row));
  }

  // ----- set_record_status ------------------------------------------------------------------

  /** set_record_status, exactly. On a record that is found, with a payload that decodes: an error if the status is none
      of the six or the check-in is not a time; refused if session or student is not live, or another live record has
      their pair; performed otherwise, and then status and check-in are as asked and nothing else has changed. */
  lemma StatusOutcome(env: Env, caller: Caller, now: Time, db: Db, a: Action)
    requires ValidEnv(env) && Tagged(db.core.rows) && a.sessionId != "" && a.body.SetRecordStatus?
    ensures var rows := db.core.rows;
      var step := ApplySetRecordStatus(env, caller, now, db, a);
      match LoadRecord(rows, a)
      case TargetError => step == ActionError
      case TargetConflict(reason) => step == Reported(db, reason)
      case Found(row) =>
        if a.body.mark.None? then step == ActionError
        else
          var (status, checkInAt) := a.body.mark.value;
          var key, student := Key(AttendanceRecords, a.recordId.value), row.body.studentId;
          if status !in {"unmarked", "present", "late", "excused", "left_early", "absent"} then step == ActionError
          else if !Live(rows, AttendanceSessions, a.sessionId) || !Live(rows, Students, student) then
            step == Reported(db, ForeignKeyMissing)
          else if AttendanceTaken(rows, a.sessionId, student, a.recordId.value) then
            step == Reported(db, DuplicateValue)
          else if ParseOptional(env.parseTime, checkInAt).None? then step == ActionError
          else
            && step.Performed?
            && OneRowChanged(db.core, step.db.core, key,
                 Row(row.createdAt, now, now, row.deletedAt,
                     Attendance(a.sessionId, student, status, ParseOptional(env.parseTime, checkInAt).value,
                                row.body.notes)))
            && OneAudit(env, caller, db, step.db, a, "update_status", key)
  {
    hide LoadRecord, FromRow, Save, ActionAudit, AttendanceTaken, Live, OneRowChanged, Tagged, ValidEnv, ReopensLate,
      Storable, OneAudit, AuditTells, MarkFields;
    if LoadRecord(db.core.rows, a).Found? && a.body.mark.Some? {
      var row := LoadRecord(db.core.rows, a).row;
      MarkedTarget(env, db.core.rows, a);
      var doc := FromRow(env, a.recordId.value, row);
      var marked := doc.(body := MarkFields(doc.body, a.body.mark.value.0, a.body.mark.value.1));
      RecordSaved(env, db, marked, now, row);
      if Save(env, db, Upsert, marked.id, marked, now, Some(row)).Saved? {
        StatusSet(env, caller, now, db, a);
        SavedAudit(env, caller, db, a, marked, row, now);
        AuditedOnce(env, caller, db, a, marked, row, now);
      }
    }
  }

  /** One audit row more, and it tells what became of the row; processed ids and the student-code counter stay. */
  ghost predicate OneAudit(env: Env, caller: Caller, before: Db, after: Db, a: Action, action: string, key: Key) {
    && after.processed == before.processed && after.counter == before.counter
    && |after.audit| == |before.audit| + 1 && before.audit <= after.audit
    && key in after.core.rows
    && AuditTells(env, caller, a, action, key, Lookup(before.core.rows, key.entity, key.id), after.core.rows[key],
                  after.audit[|before.audit|])
  }

  lemma AuditedOnce(env: Env, caller: Caller, db: Db, a: Action, doc: Record, row: Row, now: Time)
    requires (doc.body.Session? || doc.body.Attendance?) && doc.id != "" && !a.body.DeleteSession?
    requires KeyOf(doc) in db.core.rows && db.core.rows[KeyOf(doc)] == row
    requires Save(env, db, Upsert, doc.id, doc, now, Some(row)).Saved?
    requires var Saved(after, rec) := Save(env, db, Upsert, doc.id, doc, now, Some(row));
      KeyOf(doc) in after.core.rows
      && AuditTells(env, caller, a, ActionAuditName(a.body), KeyOf(doc), Some(row), after.core.rows[KeyOf(doc)],
                    ActionAudit(env, caller, a, a.clubId, Some(row), rec))
    ensures var step := SaveAudited(env, caller, now, db, a, doc, row);
      step.Performed? && OneAudit(env, caller, db, step.db, a, ActionAuditName(a.body), KeyOf(doc))
  {
    hide Save, ActionAudit, AuditTells, Vetted, Write;
    SaveEffect(env, db, Upsert, doc.id, doc, now, Some(row));
  }

  lemma MarkedTarget(env: Env, rows: Rows, a: Action)
    requires ValidEnv(env) && a.body.SetRecordStatus? && a.body.mark.Some? && LoadRecord(rows, a).Found?
    ensures a.recordId.Some? && a.recordId.value != ""
    ensures var row := LoadRecord(rows, a).row;
      var doc := FromRow(env, a.recordId.value, row);
      var (status, checkInAt) := a.body.mark.value;
      var marked := doc.(body := MarkFields(doc.body, status, checkInAt));
      && row.body.Attendance? && row.body.sessionId == a.sessionId && row.body.studentId != ""
      && Key(AttendanceRecords, a.recordId.value) in rows && rows[Key(AttendanceRecords, a.recordId.value)] == row
      && marked.id == a.recordId.value
      && marked.body == Attendance(a.sessionId, row.body.studentId, status, checkInAt, row.body.notes)
      && (Storable(env, marked) <==> ParseOptional(env.parseTime, checkInAt).Some?)
  {
    var row := LoadRecord(rows, a).row;
    assert env.parseTime(env.formatTime(row.createdAt)) == Some(row.createdAt);
    if row.deletedAt.Some? {
      assert env.parseTime(env.formatTime(row.deletedAt.value)) == Some(row.deletedAt.value);
    }
  }

  // ----- set_session_note and set_session_status ----------------------------------------------

  /** The fields the session is to have: the payload's status or note, and the stored value of the other. */
  ghost function AskedStatus(a: Action, row: Row): string
    requires row.body.Session?
  {
    if a.body.SetSessionStatus? && a.body.newStatus.Some? then a.body.newStatus.value else row.body.status
  }

  ghost function AskedNotes(a: Action, row: Row): Option<string>
    requires row.body.Session?
  {
    if a.body.SetSessionNote? && a.body.note.Some? then a.body.note.value else row.body.notes
  }

  /** set_session_note and set_session_status, exactly. On a session that is found, with a payload that decodes: an
      error if the status would be neither draft nor completed, refused if that would reopen a completed session on
      another day or the club is not live, and performed otherwise; then that one field is as asked and nothing else
      changed. */
  lemma SessionOutcome(env: Env, caller: Caller, now: Time, db: Db, a: Action)
    requires ValidEnv(env) && Tagged(db.core.rows) && a.sessionId != "" && a.clubId != ""
    requires a.body.SetSessionNote? || a.body.SetSessionStatus?
    ensures var rows := db.core.rows;
      var step := ApplySetSession(env, caller, now, db, a);
      match LoadSession(rows, a)
      case TargetError => step == ActionError
      case TargetConflict(reason) => step == Reported(db, reason)
      case Found(row) =>
        row.body.Session? &&
        if (if a.body.SetSessionNote? then a.body.note.None? else a.body.newStatus.None?) then step == ActionError
        else if AskedStatus(a, row) !in {"draft", "completed"} then step == ActionError
        else if AskedStatus(a, row) == "draft" && row.body.status == "completed"
                && env.formatDate(row.body.sessionDate) != env.formatDate(DateOf(now)) then
          step == Reported(db, BusinessRule)
        else if !Live(rows, Clubs, a.clubId) then step == Reported(db, ForeignKeyMissing)
        else
          var key := Key(AttendanceSessions, a.sessionId);
          && step.Performed?
          && OneRowChanged(db.core, step.db.core, key,
               Row(row.createdAt, now, now, row.deletedAt,
                   Session(a.clubId, row.body.sessionDate, AskedStatus(a, row), AskedNotes(a, row))))
          && OneAudit(env, caller, db, step.db, a, if a.body.SetSessionNote? then "update_note" else "update_status",
                      key)
  {
    hide LoadSession, FromRow, Save, ActionAudit, Live, OneRowChanged, Tagged, ValidEnv, Storable, OneAudit, AuditTells,
      SessionFields;
    if LoadSession(db.core.rows, a).Found? {
      var row := LoadSession(db.core.rows, a).row;
      LoadedSession(db.core.rows, a);
      var doc := FromRow(env, a.sessionId, row);
      var asked := doc.(body := SessionFields(doc.body, AskedStatus(a, row), AskedNotes(a, row)));
      AskedTarget(env, db.core.rows, a);
      SaveOutcome(env, db, Upsert, asked, now, Some(row));
      if Save(env, db, Upsert, asked.id, asked, now, Some(row)).Saved?
         && (if a.body.SetSessionNote? then a.body.note.Some? else a.body.newStatus.Some?) {
        SavedAudit(env, caller, db, a, asked, row, now);
        AuditedOnce(env, caller, db, a, asked, row, now);
        SessionSet(env, caller, now, db, a);
      }
    }
  }

  lemma AskedTarget(env: Env, rows: Rows, a: Action)
    requires ValidEnv(env) && LoadSession(rows, a).Found?
    ensures var row := LoadSession(rows, a).row;
      && row.body.Session? && row.body.clubId == a.clubId
      && Key(AttendanceSessions, a.sessionId) in rows && rows[Key(AttendanceSessions, a.sessionId)] == row
      && (var doc := FromRow(env, a.sessionId, row);
          var date := env.formatDate(row.body.sessionDate);
          var asked := doc.(body := SessionFields(doc.body, AskedStatus(a, row), AskedNotes(a, row)));
          && asked.id == a.sessionId && date != "" && Storable(env, asked)
          && asked.body == Session(a.clubId, date, AskedStatus(a, row), AskedNotes(a, row)))
  {
    var row := LoadSession(rows, a).row;
    FormattedNotEmpty(env, 0, row.body.sessionDate);
    assert env.parseDate(env.formatDate(row.body.sessionDate)) == Some(row.body.sessionDate);
    assert env.parseTime(env.formatTime(row.createdAt)) == Some(row.createdAt);
    if row.deletedAt.Some? {
      assert env.parseTime(env.formatTime(row.deletedAt.value)) == Some(row.deletedAt.value);
    }
  }

  // ----- set_record_note with a blank note ------------------------------------------------------

  /** Removing the mirror of a note: an error if its kind is unknown, refused if its student or club is not live, and
      otherwise it gets its tombstone. */
  lemma RemovalOutcome(env: Env, now: Time, db: Db, id: string)
    requires ValidEnv(env) && Ready(env, db, now) && Key(StudentMessages, id) in db.core.rows
    ensures var key := Key(StudentMessages, id);
      var row := db.core.rows[key];
      var step := RemoveNoteMessage(env, now, db, id);
      row.body.Message? &&
      if row.body.messageType !in {"manual", "attendance_note"} then step == ActionError
      else if Orphan(db.core.rows, row.body) then step == Reported(db, ForeignKeyMissing)
      else
        && step.Performed? && step.db == db.(core := step.db.core)
        && OneRowChanged(db.core, step.db.core, key, Tombstone(row, now))
  {
    hide Invariant, NotAfter, Write, Canonicalize, OneRowChanged, Tombstone, FromRow, ValidEnv, Orphan, Tagged,
      Referenced;
    var key := Key(StudentMessages, id);
    var row := db.core.rows[key];
    ReadyIsReferenced(env, db, now);
    StoredRefers(env, db.core, StudentMessages, id);
    MessageRow(db.core.rows, id);
    ReferencesNamed(env, db.core, key);
    MessageDeletion(env, db, id, row, now);
    var c :=
      Canonicalize(env, db.core.rows, db.counter, StudentMessages, Delete, id, Decoded(FromRow(env, id, row)), now,
                          Some(row));
    RenderedMessage(env, id, row);
    if c.Canonical? {
      TombstoneStored(env, id, row, c.record, now);
      TombstoneRefers(env, db.core.rows, c.record, row, now);
      TombstoneWritten(env, db.core.rows, db.core, c.record, now);
      MessageBuried(env, db.core, id, row, c.record, now);
    }
  }

  lemma NothingToRemove(env: Env, now: Time, db: Db, id: string)
    requires Key(StudentMessages, id) !in db.core.rows
    ensures RemoveNoteMessage(env, now, db, id) == Performed(db, [])
  {
  }

  lemma MessageRow(rows: Rows, id: string)
    requires Tagged(rows) && Key(StudentMessages, id) in rows
    ensures rows[Key(StudentMessages, id)].body.Message?
  {
    assert EntityOf(rows[Key(StudentMessages, id)].body) == StudentMessages;
  }

  lemma RenderedMessage(env: Env, id: string, row: Row)
    requires row.body.Message?
    ensures FromRow(env, id, row).body.Message? && FromRow(env, id, row).id == id
  {
  }

  lemma MessageDeletion(env: Env, db: Db, id: string, row: Row, now: Time)
    requires row.body.Message? && row.body.studentId != "" && row.body.clubId != ""
    ensures var doc := FromRow(env, id, row);
      var c := Canonicalize(env, db.core.rows, db.counter, StudentMessages, Delete, id, Decoded(doc), now, Some(row));
      if row.body.messageType !in {"manual", "attendance_note"} then c == Broken
      else if Orphan(db.core.rows, row.body) then c == Rejected(ForeignKeyMissing, db.counter)
      else c.Canonical? && c.newCounter == db.counter && CanonicalOf(env, Delete, doc, c.record, now)
  {
  }

  lemma MessageBuried(env: Env, core: Core, id: string, row: Row, rec: Record, now: Time)
    requires Key(StudentMessages, id) in core.rows && core.rows[Key(StudentMessages, id)] == row && row.body.Message?
    requires ToRow(env, rec) == Some(Tombstone(row, now)) && Write(env, core, rec, now).Some?
    requires rec.id == id && rec.body.Message?
    ensures OneRowChanged(core, Write(env, core, rec, now).value, Key(StudentMessages, id), Tombstone(row, now))
  {
    hide ToRow, ForeignKeysHold, FitsIndexes, TrimSpace;
  }

  /** set_record_note with a blank note, exactly. As for any note, the record is saved first: refused if session or
      student is not live or the pair is taken. Then its mirror message, if there is one, is removed; if that is refused
      because the message's student or club is not live, the action is reported although the note is already cleared. */
  lemma BlankNoteOutcome(env: Env, caller: Caller, now: Time, db: Db, a: Action)
    requires ValidEnv(env) && Ready(env, db, now) && a.clubId != "" && a.sessionId != ""
    requires a.body.SetRecordNote? && (a.body.note.Some? ==> BlankNote(a.body.note.value))
    ensures var rows := db.core.rows;
      var step := ApplySetRecordNote(env, caller, now, db, a);
      match LoadRecord(rows, a)
      case TargetError => step == ActionError
      case TargetConflict(reason) => step == Reported(db, reason)
      case Found(row) =>
        if a.body.note.None? || !IsAttendanceStatus(row.body.attendanceStatus) then step == ActionError
        else if !Live(rows, AttendanceSessions, a.sessionId) || !Live(rows, Students, row.body.studentId) then
          step == Reported(db, ForeignKeyMissing)
        else if AttendanceTaken(rows, a.sessionId, row.body.studentId, a.recordId.value) then
          step == Reported(db, DuplicateValue)
        else
          ClearedAs(env, caller, db, a, row, now, step)
  {
    hide LoadRecord, FromRow, Save, Blank, ActionAudit, AttendanceTaken, Live, IsAttendanceStatus, OneRowChanged,
      TrimSpace, Tagged, ValidEnv, ReopensLate, Storable, Ready, ClearedAs, NotedRecord, ApplySetRecordNote, ToColumns;
    ReadyIsReferenced(env, db, now);
    NoteBegins(env, caller, now, db, a);
    if LoadRecord(db.core.rows, a).Found? && a.body.note.Some? {
      var row := LoadRecord(db.core.rows, a).row;
      NotedTarget(env, db.core.rows, a);
      var noted := NotedRecord(env, a, row);
      NotedStorable(env, db.core.rows, a);
      NotedFields(env, db.core.rows, a);
      RecordSaved(env, db, noted, now, row);
      if Save(env, db, Upsert, noted.id, noted, now, Some(row)).Saved? {
        NoteCleared(env, caller, now, db, a, row);
      }
    }
  }

  lemma NotedFields(env: Env, rows: Rows, a: Action)
    requires a.body.SetRecordNote? && a.body.note.Some? && LoadRecord(rows, a).Found?
    ensures a.recordId.Some?
    ensures var row := LoadRecord(rows, a).row;
      row.body.Attendance?
      && NotedRecord(env, a, row).body ==
           Attendance(a.sessionId, row.body.studentId, row.body.attendanceStatus,
                      FormatOptional(env.formatTime, row.body.checkInAt), a.body.note.value)
  {
  }

  /** set_record_note up to its first write. */
  lemma NoteBegins(env: Env, caller: Caller, now: Time, db: Db, a: Action)
    requires a.body.SetRecordNote?
    ensures var step := ApplySetRecordNote(env, caller, now, db, a);
      match LoadRecord(db.core.rows, a)
      case TargetError => step == ActionError
      case TargetConflict(reason) => step == Reported(db, reason)
      case Found(row) =>
        if a.body.note.None? then step == ActionError
        else
          a.recordId.Some? &&
          var noted := NotedRecord(env, a, row);
          match Save(env, db, Upsert, noted.id, noted, now, Some(row))
          case SaveError => step == ActionError
          case SaveRefused(reason) => step == Reported(db, reason)
          case Saved(_, _) => true
  {
    hide FromRow, Save, SyncNoteMessage, ActionAudit;
    if LoadRecord(db.core.rows, a).Found? && a.body.note.Some? {
      NotedTarget(env, db.core.rows, a);
    }
  }

  /** An attendance row with another note, as of `now`. */
  function Renoted(row: Row, notes: Option<string>, now: Time): Row
    requires row.body.Attendance?
  {
    Row(row.createdAt, now, now, row.deletedAt,
        Attendance(row.body.sessionId, row.body.studentId, row.body.attendanceStatus, row.body.checkInAt, notes))
  }

  /** What clearing a note comes to once the record is saved. */
  ghost predicate ClearedAs(env: Env, caller: Caller, db: Db, a: Action, row: Row, now: Time, step: ActionStep)
    requires row.body.Attendance? && a.recordId.Some? && a.body.SetRecordNote? && a.body.note.Some?
  {
    var rows := db.core.rows;
    var key, mirror :=
      Key(AttendanceRecords, a.recordId.value), Key(StudentMessages, "attendance-note-" + a.recordId.value);
    var cleared := Renoted(row, a.body.note.value, now);
    if mirror !in rows then
      step.Performed? && OneRowChanged(db.core, step.db.core, key, cleared)
      && OneAudit(env, caller, db, step.db, a, "update_note", key)
    else if !rows[mirror].body.Message? || rows[mirror].body.messageType !in {"manual", "attendance_note"} then
      step == ActionError
    else if Orphan(rows, rows[mirror].body) then
      step.Reported? && step.reason == ForeignKeyMissing && step.db == db.(core := step.db.core)
      && OneRowChanged(db.core, step.db.core, key, cleared)
    else
      && step.Performed? && step.db.core.rows == rows[key := cleared][mirror := Tombstone(rows[mirror], now)]
      && |step.db.core.log| == |db.core.log| + 2
      && OneAudit(env, caller, db, step.db, a, "update_note", key)
  }

  lemma NoteCleared(env: Env, caller: Caller, now: Time, db: Db, a: Action, row: Row)
    requires ValidEnv(env) && Ready(env, db, now) && a.clubId != "" && a.sessionId != ""
    requires a.body.SetRecordNote? && a.body.note.Some? && BlankNote(a.body.note.value)
    requires LoadRecord(db.core.rows, a) == Found(row) && a.recordId.Some? && row.body.Attendance?
    requires var noted := NotedRecord(env, a, row);
      Save(env, db, Upsert, noted.id, noted, now, Some(row)).Saved?
    ensures ClearedAs(env, caller, db, a, row, now, ApplySetRecordNote(env, caller, now, db, a))
  {
    hide LoadRecord, FromRow, Save, ActionAudit, ValidEnv, Ready, Storable, AuditTells, Tombstone, RemoveNoteMessage,
      TrimSpace, Blank, Progress, NotedRecord, Orphan;
    var noted := NotedRecord(env, a, row);
    var Saved(db1, saved) := Save(env, db, Upsert, noted.id, noted, now, Some(row));
    NoteStep(env, caller, now, db, a, row);
    ClearedRecord(env, caller, now, db, a, row);
    var id := NoteMessageId(a.recordId.value);
    var key, mirror := Key(AttendanceRecords, a.recordId.value), Key(StudentMessages, id);
    assert mirror in db1.core.rows <==> mirror in db.core.rows;
    if mirror in db.core.rows {
      assert db1.core.rows[mirror] == db.core.rows[mirror];
      RemovalOutcome(env, now, db1, id);
      OrphanElsewhere(db.core.rows, db1.core.rows, key, db.core.rows[mirror].body);
    } else {
      NothingToRemove(env, now, db1, id);
    }
  }

  /** The note action after the record is saved. */
  lemma NoteStep(env: Env, caller: Caller, now: Time, db: Db, a: Action, row: Row)
    requires a.body.SetRecordNote? && a.body.note.Some? && BlankNote(a.body.note.value)
    requires LoadRecord(db.core.rows, a) == Found(row) && a.recordId.Some?
    requires var noted := NotedRecord(env, a, row);
      Save(env, db, Upsert, noted.id, noted, now, Some(row)).Saved?
    ensures var noted := NotedRecord(env, a, row);
      var Saved(db1, saved) := Save(env, db, Upsert, noted.id, noted, now, Some(row));
      ApplySetRecordNote(env, caller, now, db, a) ==
        match RemoveNoteMessage(env, now, db1, NoteMessageId(a.recordId.value))
        case ActionError => ActionError
        case Reported(db2, reason) => Reported(db2, reason)
        case Performed(db2, _) =>
          Performed(db2.(audit := db2.audit + [ActionAudit(env, caller, a, a.clubId, Some(row), saved)]), [saved])
  {
    hide FromRow, Save, RemoveNoteMessage, ActionAudit;
    NotedTarget(env, db.core.rows, a);
    hide LoadRecord;
  }

  /** What saving the cleared record leaves, and what the audit row will tell. */
  lemma ClearedRecord(env: Env, caller: Caller, now: Time, db: Db, a: Action, row: Row)
    requires ValidEnv(env) && Ready(env, db, now)
    requires a.body.SetRecordNote? && a.body.note.Some?
    requires LoadRecord(db.core.rows, a) == Found(row) && a.recordId.Some? && row.body.Attendance?
    requires var noted := NotedRecord(env, a, row);
      Save(env, db, Upsert, noted.id, noted, now, Some(row)).Saved?
    ensures var noted := NotedRecord(env, a, row);
      var Saved(db1, saved) := Save(env, db, Upsert, noted.id, noted, now, Some(row));
      var key := Key(AttendanceRecords, a.recordId.value);
      && key in db.core.rows && db.core.rows[key] == row
      && Ready(env, db1, now) && db1 == db.(core := db1.core)
      && OneRowChanged(db.core, db1.core, key, Renoted(row, a.body.note.value, now))
      && AuditTells(env, caller, a, "update_note", key, Some(row), Renoted(row, a.body.note.value, now),
                    ActionAudit(env, caller, a, a.clubId, Some(row), saved))
  {
    hide LoadRecord, FromRow, Save, ActionAudit, ValidEnv, Storable, AuditTells, Progress, NotedRecord, Invariant,
      NotAfter;
    var noted := NotedRecord(env, a, row);
    var Saved(db1, saved) := Save(env, db, Upsert, noted.id, noted, now, Some(row));
    NotedTarget(env, db.core.rows, a);
    NotedStorable(env, db.core.rows, a);
    NoteSaved(env, db, a, noted, now, row);
    EditedRowStored(env, db, noted, now, row, Renoted(row, a.body.note.value, now).body);
    SaveProgress(env, db, Upsert, noted.id, noted, now, Some(row));
    ProgressKeepsTags(env, db, db1, now);
    SavedAudit(env, caller, db, a, noted, row, now);
  }

  lemma OrphanElsewhere<D, T>(before: Rows, after: Rows, key: Key, body: Body<D, T>)
    requires key.entity == AttendanceRecords && key in after && after == before[key := after[key]]
    ensures Orphan(after, body) <==> Orphan(before, body)
  {
  }

  // ----- mark_all_present --------------------------------------------------------------------

  /** Why a record of the session cannot be marked, if it cannot. */
  ghost function MarkRefusal(rows: Rows, sessionId: string, id: string): Option<Reason> {
    var key := Key(AttendanceRecords, id);
    if key !in rows || !rows[key].body.Attendance? then None
    else if !Live(rows, AttendanceSessions, sessionId) || !Live(rows, Students, rows[key].body.studentId) then
      Some(ForeignKeyMissing)
    else if AttendanceTaken(rows, sessionId, rows[key].body.studentId, id) then Some(DuplicateValue)
    else None
  }

  /** The first of the listed records that cannot be marked decides. */
  ghost function FirstRefusal(rows: Rows, sessionId: string, ids: seq<string>): Option<Reason> {
    if ids == [] then None
    else
      var n := |ids| - 1;
      var front := FirstRefusal(rows, sessionId, ids[..n]);
      if front.Some? then front else MarkRefusal(rows, sessionId, ids[n])
  }

  /** mark_all_present, exactly. On a session that is found, with a payload that decodes: nothing is done for no ids,
      and an empty id is refused. Otherwise it is refused if one of the wanted records of the session cannot be marked,
      with the reason of the first of them in row order, or if a wanted id is not in the session; it is an error if the
      check-in is not a time, and performed otherwise, and then exactly the wanted records are marked. */
  lemma MarkAllOutcome(env: Env, now: Time, db: Db, a: Action)
    requires ValidEnv(env) && Invariant(env, db.core) && a.sessionId != "" && a.body.MarkAllPresent?
    ensures var rows := db.core.rows;
      var step := ApplyMarkAllPresent(env, now, db, a);
      match LoadSession(rows, a)
      case TargetError => step == ActionError
      case TargetConflict(reason) => step == Reported(db, reason)
      case Found(_) =>
        if a.body.targets.None? then step == ActionError
        else
          var (ids, checkInAt) := a.body.targets.value;
          var wanted := set id | id in ids;
          var inSession := SessionRecordIds(rows, a.sessionId);
          var refusal := FirstRefusal(rows, a.sessionId, Keep(env.listing(inSession), wanted));
          if ids == [] then step == Performed(db, [])
          else if "" in ids then step == Reported(db, ValidationFailed)
          else if refusal.Some? then step == Reported(db, refusal.value)
          else if !(wanted <= inSession) then step == Reported(db, ForeignKeyMissing)
          else if ParseOptional(env.parseTime, checkInAt).None? then step == ActionError
          else
            && step.Performed? && step.db == db.(core := step.db.core)
            && AllMarked(env, db.core, step.db.core, ids, a.sessionId, checkInAt, now)
            && |step.db.core.log| == |db.core.log| + |wanted|
  {
    hide LoadSession, Keep, PresentDocs, CanonicalizeAll, WriteAll, ValidEnv, SessionRecordIds, AllMarked, Invariant,
      FirstRefusal;
    if LoadSession(db.core.rows, a).Found? && a.body.targets.Some? {
      var (ids, checkInAt) := a.body.targets.value;
      if ids != [] && "" !in ids {
        MarkAllDecided(env, now, db, a);
      }
    }
  }

  /** Once the ids are not empty. */
  lemma MarkAllDecided(env: Env, now: Time, db: Db, a: Action)
    requires ValidEnv(env) && Invariant(env, db.core) && a.sessionId != "" && a.body.MarkAllPresent?
    requires LoadSession(db.core.rows, a).Found? && a.body.targets.Some?
    requires a.body.targets.value.0 != [] && "" !in a.body.targets.value.0
    ensures var rows := db.core.rows;
      var step := ApplyMarkAllPresent(env, now, db, a);
      var (ids, checkInAt) := a.body.targets.value;
      var wanted := set id | id in ids;
      var inSession := SessionRecordIds(rows, a.sessionId);
      var refusal := FirstRefusal(rows, a.sessionId, Keep(env.listing(inSession), wanted));
      if refusal.Some? then step == Reported(db, refusal.value)
      else if !(wanted <= inSession) then step == Reported(db, ForeignKeyMissing)
      else if ParseOptional(env.parseTime, checkInAt).None? then step == ActionError
      else
        && step.Performed? && step.db == db.(core := step.db.core)
        && AllMarked(env, db.core, step.db.core, ids, a.sessionId, checkInAt, now)
        && |step.db.core.log| == |db.core.log| + |wanted|
  {
    hide LoadSession, Keep, PresentDocs, CanonicalizeAll, WriteAll, ValidEnv, SessionRecordIds, AllMarked, Invariant,
      FirstRefusal, ParseOptional, Tagged;
    var rows := db.core.rows;
    var (ids, checkInAt) := a.body.targets.value;
    var wanted := set id | id in ids;
    var inSession := SessionRecordIds(rows, a.sessionId);
    var kept := Keep(env.listing(inSession), wanted);
    InvariantParts(env, db.core);
    KeptInSession(env, rows, a.sessionId, wanted);
    PresentDocsCanonical(env, db.core, a.sessionId, kept, checkInAt, now);
    if FirstRefusal(rows, a.sessionId, kept).None? && wanted <= inSession {
      KeptIsWanted(env, inSession, wanted);
      MarksWritten(env, db.core, a.sessionId, kept, checkInAt, now);
      SameSize(kept, wanted);
      if ParseOptional(env.parseTime, checkInAt).Some? {
        assert ApplyMarkAllPresent(env, now, db, a).Performed?;
        MarkAllMarks(env, now, db, a);
      } else {
        assert ids[0] in wanted;
        assert kept != [];
      }
    }
  }

  lemma {:induction false} SameSize(order: seq<string>, ids: set<string>)
    requires Lists(order, ids)
    ensures |order| == |ids|
  {
    if order != [] {
      var n := |order| - 1;
      assert order[n] in order && order[n] !in order[..n];
      assert forall x :: x in order[..n] <==> x in ids - {order[n]};
      SameSize(order[..n], ids - {order[n]});
    } else {
      assert ids == {} by {
        assert forall x :: x in ids ==> x in order;
      }
    }
  }

  lemma KeptInSession(env: Env, rows: Rows, sessionId: string, wanted: set<string>)
    requires ValidEnv(env)
    ensures forall id | id in Keep(env.listing(SessionRecordIds(rows, sessionId)), wanted) ::
      InSession(rows, sessionId, id)
  {
    hide Keep, ValidEnv;
    ListingLists(env, SessionRecordIds(rows, sessionId));
    KeepMembers(env.listing(SessionRecordIds(rows, sessionId)), wanted);
  }

  ghost predicate InSession(rows: Rows, sessionId: string, id: string) {
    var key := Key(AttendanceRecords, id);
    key in rows && rows[key].body.Attendance? && rows[key].body.sessionId == sessionId
  }

  /** The payloads of the wanted records are canonical unless one of them is refused. */
  lemma {:induction false} PresentDocsCanonical(env: Env, core: Core, sessionId: string, ids: seq<string>,
                                                checkInAt: Option<string>, now: Time)
    requires Invariant(env, core) && sessionId != ""
    requires forall id | id in ids :: InSession(core.rows, sessionId, id)
    ensures var all := CanonicalizeAll(env, core.rows, Upsert, PresentDocs(env, core.rows, ids, checkInAt), now);
      match FirstRefusal(core.rows, sessionId, ids)
      case Some(reason) => all == AllRefused(reason)
      case None => all.AllCanonical?
  {
    hide Invariant, Canonicalize, CanonicalizeAll, MarkRefusal, Tagged, FromRow, PresentDoc;
    if ids == [] {
      assert PresentDocs(env, core.rows, ids, checkInAt) == [];
      NothingCanonicalized(env, core.rows, now);
    } else {
      var n := |ids| - 1;
      assert forall id | id in ids[..n] :: id in ids;
      PresentDocsCanonical(env, core, sessionId, ids[..n], checkInAt, now);
      assert InSession(core.rows, sessionId, ids[n]);
      InvariantParts(env, core);
      PresentDocsLast(env, core.rows, ids, checkInAt);
      PresentDocCanonical(env, core, sessionId, ids[n], checkInAt, now);
      hide PresentDocs, InSession;
      CanonicalizedNext(env, core.rows, PresentDocs(env, core.rows, ids[..n], checkInAt),
                        PresentDoc(env, core.rows, ids[n], checkInAt), now);
    }
  }

  lemma NothingCanonicalized(env: Env, rows: Rows, now: Time)
    ensures CanonicalizeAll(env, rows, Upsert, [], now) == AllCanonical([])
  {
  }

  lemma CanonicalizedNext(env: Env, rows: Rows, front: seq<Record>, doc: Record, now: Time)
    ensures CanonicalizeAll(env, rows, Upsert, front + [doc], now) ==
      match CanonicalizeAll(env, rows, Upsert, front, now)
      case AllError => AllError
      case AllRefused(reason) => AllRefused(reason)
      case AllCanonical(records) =>
        match Canonicalize(env, rows, 0, EntityOf(doc.body), Upsert, doc.id, Decoded(doc), now, None)
        case Broken => AllError
        case Rejected(reason, _) => AllRefused(reason)
        case Canonical(rec, _) => AllCanonical(records + [rec])
  {
    hide Canonicalize;
    assert (front + [doc])[..|front|] == front;
  }

  lemma PresentDocCanonical(env: Env, core: Core, sessionId: string, id: string, checkInAt: Option<string>, now: Time)
    requires Invariant(env, core) && sessionId != "" && InSession(core.rows, sessionId, id)
    ensures var doc := PresentDoc(env, core.rows, id, checkInAt);
      var c := Canonicalize(env, core.rows, 0, EntityOf(doc.body), Upsert, doc.id, Decoded(doc), now, None);
      match MarkRefusal(core.rows, sessionId, id)
      case Some(reason) => c == Rejected(reason, 0)
      case None => c.Canonical?
  {
    hide Invariant, AttendanceTaken, Live, PresentDoc, Stamp;
    ReferencesNamed(env, core, Key(AttendanceRecords, id));
    PresentDocShape(env, core.rows, id, checkInAt);
  }

  lemma PresentDocShape(env: Env, rows: Rows, id: string, checkInAt: Option<string>)
    requires Key(AttendanceRecords, id) in rows && rows[Key(AttendanceRecords, id)].body.Attendance?
    ensures var doc := PresentDoc(env, rows, id, checkInAt);
      var body := rows[Key(AttendanceRecords, id)].body;
      doc.id == id && doc.body == Attendance(body.sessionId, body.studentId, "present", checkInAt, body.notes)
  {
  }

  /** Two rows of one table that an index cannot tell apart. */
  ghost predicate SamePair(a: Row, b: Row) {
    && a.body.Attendance? && b.body.Attendance? && a.deletedAt == b.deletedAt
    && a.body.sessionId == b.body.sessionId && a.body.studentId == b.body.studentId
  }

  /** A record that keeps the session, the student and the deletion of the row it replaces. */
  ghost predicate KeepsPair(env: Env, rows: Rows, rec: Record) {
    && ToRow(env, rec).Some? && KeyOf(rec) in rows && SamePair(ToRow(env, rec).value, rows[KeyOf(rec)])
  }

  ghost predicate PairsKept(before: Rows, after: Rows) {
    && after.Keys == before.Keys
    && forall k | k in before :: after[k] == before[k] || SamePair(after[k], before[k])
  }

  /** Nothing in the database refuses such records. */
  lemma {:induction false} PairsWritten(env: Env, core: Core, recs: seq<Record>, now: Time)
    requires Indexed(core.rows) && Referenced(env, core) && forall r | r in recs :: KeepsPair(env, core.rows, r)
    ensures WriteAll(env, core, recs, now).Some?
    ensures PairsKept(core.rows, WriteAll(env, core, recs, now).value.rows)
  {
    hide Indexed, Referenced, KeepsPair, PairsKept, Write;
    if recs == [] {
      NothingWritten(core.rows);
    } else {
      var n := |recs| - 1;
      assert forall r | r in recs[..n] :: r in recs;
      PairsWritten(env, core, recs[..n], now);
      assert recs[n] in recs;
      PairWritten(env, core, WriteAll(env, core, recs[..n], now).value, recs[n], now);
    }
  }

  lemma NothingWritten(rows: Rows)
    ensures PairsKept(rows, rows)
  {
  }

  lemma PairWritten(env: Env, start: Core, core: Core, rec: Record, now: Time)
    requires Indexed(start.rows) && Referenced(env, start) && KeepsPair(env, start.rows, rec)
    requires PairsKept(start.rows, core.rows)
    ensures Write(env, core, rec, now).Some? && PairsKept(start.rows, Write(env, core, rec, now).value.rows)
  {
    hide ToRow, EntityOf;
    var key, row := KeyOf(rec), ToRow(env, rec).value;
    assert ForeignKeysHold(env.users, start.rows, start.rows[key].body);
    assert ForeignKeysHold(env.users, core.rows, row.body);
    hide Referenced;
    forall k | k in core.rows && k != key && k.entity == key.entity
      ensures !Collides(row, core.rows[k])
    {
      PairClear(start.rows, key, k, row, core.rows[k]);
    }
    hide Collides, Indexed, ForeignKeysHold;
  }

  lemma PairClear(rows: Rows, key: Key, k: Key, row: Row, other: Row)
    requires Indexed(rows) && key in rows && k in rows && k != key && k.entity == key.entity
    requires SamePair(row, rows[key]) && (other == rows[k] || SamePair(other, rows[k]))
    ensures !Collides(row, other)
  {
    assert !Collides(rows[key], rows[k]);
  }

  /** Marking them all goes through exactly if the check-in is a time. */
  lemma MarksWritten(env: Env, core: Core, sessionId: string, ids: seq<string>, checkInAt: Option<string>, now: Time)
    requires ValidEnv(env) && Invariant(env, core) && sessionId != ""
    requires forall id | id in ids :: InSession(core.rows, sessionId, id)
    requires FirstRefusal(core.rows, sessionId, ids).None?
    ensures var all := CanonicalizeAll(env, core.rows, Upsert, PresentDocs(env, core.rows, ids, checkInAt), now);
      && all.AllCanonical?
      && (WriteAll(env, core, all.records, now).Some? <==>
            ids == [] || ParseOptional(env.parseTime, checkInAt).Some?)
      && (WriteAll(env, core, all.records, now).Some? ==>
            |WriteAll(env, core, all.records, now).value.log| == |core.log| + |ids|)
  {
    hide ValidEnv, Invariant, FirstRefusal, CanonicalizeAll, PresentDocs, WriteAll, ParseOptional, KeepsPair, Tagged,
      Indexed, Referenced, GroupsDistinct, Replay;
    InvariantParts(env, core);
    PresentDocsCanonical(env, core, sessionId, ids, checkInAt, now);
    MarksStored(env, core.rows, sessionId, ids, checkInAt, now);
    var docs := PresentDocs(env, core.rows, ids, checkInAt);
    var recs := CanonicalizeAll(env, core.rows, Upsert, docs, now).records;
    if ids == [] || ParseOptional(env.parseTime, checkInAt).Some? {
      PairsWritten(env, core, recs, now);
      WriteAllEffect(env, core, recs, now);
    } else {
      UnsendableStops(env, core, recs, now);
    }
  }

  lemma UnsendableStops(env: Env, core: Core, recs: seq<Record>, now: Time)
    requires recs != [] && ToRow(env, recs[|recs| - 1]).None?
    ensures WriteAll(env, core, recs, now).None?
  {
    hide ToRow;
  }

  /** The canonical records of the wanted ids keep the pairs of their rows, if the check-in is a time. */
  lemma MarksStored(env: Env, rows: Rows, sessionId: string, ids: seq<string>, checkInAt: Option<string>, now: Time)
    requires ValidEnv(env) && Tagged(rows) && forall id | id in ids :: InSession(rows, sessionId, id)
    requires CanonicalizeAll(env, rows, Upsert, PresentDocs(env, rows, ids, checkInAt), now).AllCanonical?
    ensures var recs := CanonicalizeAll(env, rows, Upsert, PresentDocs(env, rows, ids, checkInAt), now).records;
      && |recs| == |ids|
      && (if ParseOptional(env.parseTime, checkInAt).Some? then forall r | r in recs :: KeepsPair(env, rows, r)
          else forall r | r in recs :: ToRow(env, r).None?)
  {
    hide ValidEnv, CanonicalizeAll, PresentDocs, ParseOptional, KeepsPair, Tagged, CanonicalOf, FromRow, ToRow;
    PresentDocsListed(env, rows, ids, checkInAt);
    PresentDocsAreAttendance(env, rows, ids, checkInAt);
    var docs := PresentDocs(env, rows, ids, checkInAt);
    CanonicalizeAllEffect(env, rows, Upsert, docs, now);
    var recs := CanonicalizeAll(env, rows, Upsert, docs, now).records;
    forall r | r in recs
      ensures if ParseOptional(env.parseTime, checkInAt).Some? then KeepsPair(env, rows, r) else ToRow(env, r).None?
    {
      var i: nat :| i < |recs| && recs[i] == r;
      assert InSession(rows, sessionId, ids[i]);
      assert CanonicalOf(env, Upsert, docs[i], recs[i], now);
      MarkStored(env, rows, ids[i], checkInAt, r, now);
    }
  }

  lemma MarkStored(env: Env, rows: Rows, id: string, checkInAt: Option<string>, rec: Record, now: Time)
    requires ValidEnv(env) && Key(AttendanceRecords, id) in rows && rows[Key(AttendanceRecords, id)].body.Attendance?
    requires CanonicalOf(env, Upsert, PresentDoc(env, rows, id, checkInAt), rec, now)
    ensures if ParseOptional(env.parseTime, checkInAt).Some? then KeepsPair(env, rows, rec) else ToRow(env, rec).None?
  {
    hide ParseOptional, ToRow, ValidEnv;
    PresentDocShape(env, rows, id, checkInAt);
    MarkedPresentStored(env, rows, id, checkInAt, rec, now);
  }

  // ----- what create_session and delete_session leave ------------------------------------------

  /** A performed create_session has written its session and then its records, all of them and in their order, as the
      payload says under the server's times; the tables are what that batch leaves, and one audit row tells of it. */
  lemma CreationWrites(env: Env, caller: Caller, now: Time, db: Db, a: Action, session: Record, records: seq<Record>)
    requires a.sessionId != "" && a.body.CreateSession?
    requires ApplyCreateSession(env, caller, now, db, a, session, records).Performed?
    ensures var step := ApplyCreateSession(env, caller, now, db, a, session, records);
      var written := step.changed;
      && session.body.Session? && session.id == a.sessionId && session.body.clubId == a.clubId
      && |written| == |records| + 1
      && CanonicalOf(env, Upsert, session, written[0], now)
      && (forall i | 0 <= i < |records| :: CanonicalOf(env, Upsert, records[i], written[i + 1], now))
      && WriteAll(env, db.core, written, now) == Some(step.db.core)
      && step.db.processed == db.processed && step.db.counter == db.counter
      && |step.db.audit| == |db.audit| + 1 && db.audit <= step.db.audit
      && CreationTold(env, caller, db, a, written[0], step.db.audit[|db.audit|])
  {
    hide Save, CanonicalizeAll, WriteAll, OwnRecords, ActionAudit, CreationTold, CanonicalOf;
    var existing := Lookup(db.core.rows, AttendanceSessions, a.sessionId);
    var Saved(db1, saved) := Save(env, db, Upsert, a.sessionId, session, now, existing);
    SessionSaved(env, db, session, now, existing);
    AuditOfCreation(env, caller, db, a, existing, saved);
    var own := OwnRecords(records, a.sessionId);
    OwnRecordsAreAttendance(records, a.sessionId);
    assert own == records;
    CanonicalizeAllEffect(env, db1.core.rows, Upsert, records, now);
    var recs := CanonicalizeAll(env, db1.core.rows, Upsert, records, now).records;
    WriteAllFirst(env, db.core, saved, recs, now);
    assert ([saved] + recs)[1..] == recs;
  }

  lemma SessionSaved(env: Env, db: Db, session: Record, now: Time, existing: Option<Row>)
    requires session.id != "" && session.body.Session?
    requires existing == Lookup(db.core.rows, AttendanceSessions, session.id)
    requires Save(env, db, Upsert, session.id, session, now, existing).Saved?
    ensures var Saved(after, rec) := Save(env, db, Upsert, session.id, session, now, existing);
      && CanonicalOf(env, Upsert, session, rec, now) && after == db.(core := after.core)
      && Write(env, db.core, rec, now) == Some(after.core) && rec.body.Session?
  {
    SaveEffect(env, db, Upsert, session.id, session, now, existing);
    hide Write, Vetted, Vet;
  }

  /** The audit row of a creation: its old value is the deleted session of that id, if there is one. */
  ghost predicate CreationTold(env: Env, caller: Caller, db: Db, a: Action, saved: Record, entry: AuditRow) {
    && entry.actor == caller.userId && entry.club == Some(a.clubId) && entry.reference == a.actionId
    && entry.entity == AttendanceSessions && entry.entityId == Some(saved.id) && entry.action == "create"
    && entry.oldValue.Some? == (Key(AttendanceSessions, a.sessionId) in db.core.rows)
    && entry.newValue == Some(saved)
  }

  lemma AuditOfCreation(env: Env, caller: Caller, db: Db, a: Action, existing: Option<Row>, saved: Record)
    requires saved.body.Session? && a.body.CreateSession?
    requires existing == Lookup(db.core.rows, AttendanceSessions, a.sessionId)
    ensures CreationTold(env, caller, db, a, saved, ActionAudit(env, caller, a, a.clubId, existing, saved))
  {
  }

  /** A performed delete_session leaves one audit row, about the session. */
  lemma DeleteAudited(env: Env, caller: Caller, now: Time, db: Db, a: Action)
    requires ValidEnv(env) && Ready(env, db, now) && a.sessionId != ""
    requires a.body.DeleteSession? && ApplyDeleteSession(env, caller, now, db, a).Performed?
    ensures OneAudit(env, caller, db, ApplyDeleteSession(env, caller, now, db, a).db, a, "delete",
                     Key(AttendanceSessions, a.sessionId))
  {
    hide Save, Progress, Invariant, NotAfter, Tombstone, Cascaded, FromRow, Tagged, LoadSession, DeleteListed, ValidEnv,
      SessionRecordIds, SessionMessageIds, ToRow, ActionAudit, AuditTells;
    var row := LoadSession(db.core.rows, a).row;
    LoadedSession(db.core.rows, a);
    var Saved(db1, saved) := Save(env, db, Delete, a.sessionId, FromRow(env, a.sessionId, row), now, Some(row));
    SessionTombstone(env, now, db, a, row);
    SessionTombstoneReady(env, now, db, a, row);
    DeletedSessionKey(env, now, db, a, row);
    AuditOfDelete(env, caller, a, row, saved);
    DeletePartsKeep(env, caller, now, db1, a, row, saved);
    DeleteCascades(env, caller, now, db, a);
    SessionStays(env, db.core, ApplyDeleteSession(env, caller, now, db, a).db.core, a.sessionId, now);
  }

  lemma DeletedSessionKey(env: Env, now: Time, db: Db, a: Action, row: Row)
    requires LoadSession(db.core.rows, a) == Found(row)
    requires Save(env, db, Delete, a.sessionId, FromRow(env, a.sessionId, row), now, Some(row)).Saved?
    ensures KeyOf(Save(env, db, Delete, a.sessionId, FromRow(env, a.sessionId, row), now, Some(row)).record)
      == Key(AttendanceSessions, a.sessionId)
  {
    hide Write, Live;
  }

  lemma SessionStays(env: Env, before: Core, after: Core, sessionId: string, now: Time)
    requires Cascaded(env, before, after, sessionId, now)
    ensures Key(AttendanceSessions, sessionId) in after.rows
  {
  }

  lemma AuditOfDelete(env: Env, caller: Caller, a: Action, row: Row, saved: Record)
    requires ValidEnv(env) && a.body.DeleteSession? && KeyOf(saved) == Key(AttendanceSessions, a.sessionId)
    requires row.body.Session?
    ensures forall after :: AuditTells(env, caller, a, "delete", Key(AttendanceSessions, a.sessionId), Some(row), after,
                                       ActionAudit(env, caller, a, a.clubId, Some(row), saved))
  {
    ReadBackRoundTrip(env, a.sessionId, row);
    hide ToRow, FromRow;
  }

  /** Deleting the parts of a session adds the audit row and touches neither processed ids nor counter. */
  lemma DeletePartsKeep(env: Env, caller: Caller, now: Time, db: Db, a: Action, row: Row, saved: Record)
    requires DeleteSessionRecords(env, caller, now, db, a, row, saved).Performed?
    ensures var after := DeleteSessionRecords(env, caller, now, db, a, row, saved).db;
      && after.processed == db.processed && after.counter == db.counter
      && after.audit == db.audit + [ActionAudit(env, caller, a, a.clubId, Some(row), saved)]
  {
    hide CanonicalizeAll, WriteAll, ReadBack, SessionRecordIds, SessionMessageIds;
  }

  // ----- one action of a request -----------------------------------------------------------------

  /** An action names its id, its club, its session, a time that parses, and one of the seven kinds. */
  ghost predicate CompleteAction(env: Env, a: Action) {
    && a.actionId != "" && a.clubId != "" && a.sessionId != "" && a.clientOccurredAt != ""
    && env.parseTime(a.clientOccurredAt).Some? && a.body != OtherAction
  }

  /** The answer to every action: it fails if it is not complete, and nothing happens if this device has sent it before.
      A fresh one fails if the permission service does not answer about its club, is refused without a trace if
      AttendanceWrite is not among the permissions the caller has there, and otherwise does what the outcome of its kind
      says; a refusal keeps what was written, and only a performed action is marked as processed. */
  lemma ActionAnswered(env: Env, caller: Caller, device: string, now: Time, db: Db, a: Action)
    ensures var round := ActionOne(env, caller, device, now, db, a);
      var permissions := caller.permissions(a.clubId);
      if !CompleteAction(env, a) then round == RoundFailed
      else if (device, a.actionId) in db.processed then round == Round(db, DoneBefore)
      else if permissions.None? then round == RoundFailed
      else if AttendanceWrite !in permissions.value then round == Round(db, Refused(NoPermission))
      else
        match a.body
        case CreateSession(None) => round == RoundFailed
        case CreateSession(Some((session, records))) =>
          RoundOf(device, a, ApplyCreateSession(env, caller, now, db, a, session, records), round)
        case SetRecordStatus(_) => RoundOf(device, a, ApplySetRecordStatus(env, caller, now, db, a), round)
        case MarkAllPresent(_) => RoundOf(device, a, ApplyMarkAllPresent(env, now, db, a), round)
        case SetRecordNote(_) => RoundOf(device, a, ApplySetRecordNote(env, caller, now, db, a), round)
        case SetSessionNote(_) => RoundOf(device, a, ApplySetSession(env, caller, now, db, a), round)
        case SetSessionStatus(_) => RoundOf(device, a, ApplySetSession(env, caller, now, db, a), round)
        case DeleteSession(_) => RoundOf(device, a, ApplyDeleteSession(env, caller, now, db, a), round)
        case OtherAction => round == RoundFailed
  {
    hide ApplyCreateSession, ApplySetRecordStatus, ApplyMarkAllPresent, ApplySetRecordNote, ApplySetSession,
      ApplyDeleteSession;
  }

  /** How a request goes on after an action. */
  ghost predicate RoundOf(device: string, a: Action, step: ActionStep, round: ActionRound) {
    match step
    case ActionError => round == RoundFailed
    case Reported(after, reason) => round == Round(after, Refused(reason))
    case Performed(after, changed) =>
      round == Round(after.(processed := after.processed + {(device, a.actionId)}), Done(changed))
  }
}
