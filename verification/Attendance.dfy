/** What each attendance action does to the database. A reported conflict does not undo what the action wrote
    before it. */
module AttendanceSpec {
  import opened Text
  import opened Records
  import opened Tables
  import opened Authorization
  import opened Canonical
  import opened PushSpec

  /** The seven actions with their decoded payloads; None where the payload does not decode. */
  datatype ActionBody =
    | CreateSession(content: Option<(Record, seq<Record>)>)
    | SetRecordStatus(mark: Option<(string, Option<string>)>)
    | MarkAllPresent(targets: Option<(seq<string>, Option<string>)>)
    | SetRecordNote(note: Option<Option<string>>)
    | SetSessionNote(note: Option<Option<string>>)
    | SetSessionStatus(newStatus: Option<string>)
    | DeleteSession(decodes: bool)
    | OtherAction

  datatype Action = Action(
    actionId: string, clubId: string, sessionId: string, recordId: Option<string>, studentId: Option<string>,
    clientOccurredAt: string, body: ActionBody)

  /** How an action ends: with an error, with a conflict that is reported, or performed. */
  datatype ActionStep =
    | ActionError
    | Reported(db: Db, reason: Reason)
    | Performed(db: Db, changed: seq<Record>)

  // ----- shared steps -------------------------------------------------------

  datatype SaveStep = SaveError | SaveRefused(reason: Reason) | Saved(db: Db, record: Record)

  /** upsertAttendanceActionMutation: canonicalize, then write. */
  function Save(env: Env, db: Db, operation: Operation, id: string, doc: Record, now: Time,
                existing: Option<Row>): SaveStep {
    match Canonicalize(env, db.core.rows, db.counter, EntityOf(doc.body), operation, id, Decoded(doc), now, existing)
    case Broken => SaveError
    case Rejected(reason, _) => SaveRefused(reason)
    case Canonical(rec, counter) =>
      match Write(env, db.core, rec, now)
      case None => SaveError
      case Some(core) => Saved(db.(core := core, counter := counter), rec)
  }

  datatype SaveAllStep = AllError | AllRefused(reason: Reason) | AllCanonical(records: seq<Record>)

  /** Canonicalizing a list before any of it is written; the first failure counts. */
  function CanonicalizeAll(env: Env, rows: Rows, operation: Operation, docs: seq<Record>, now: Time): SaveAllStep {
    if docs == [] then AllCanonical([])
    else
      var n := |docs| - 1;
      match CanonicalizeAll(env, rows, operation, docs[..n], now)
      case AllError => AllError
      case AllRefused(reason) => AllRefused(reason)
      case AllCanonical(records) =>
        match Canonicalize(env, rows, 0, EntityOf(docs[n].body), operation, docs[n].id, Decoded(docs[n]), now, None)
        case Broken => AllError
        case Rejected(reason, _) => AllRefused(reason)
        case Canonical(rec, _) => AllCanonical(records + [rec])
  }

  /** writeAttendanceActionAuditLog */
  function ActionAudit(env: Env, caller: Caller, a: Action, clubId: string, existing: Option<Row>,
                       applied: Record): AuditRow {
    AuditRow(caller.userId, Some(clubId), EntityOf(applied.body), Some(applied.id), ActionAuditName(a.body),
             if existing.Some? then Some(FromRow(env, applied.id, existing.value)) else None,
             if a.body.DeleteSession? then None else Some(applied),
             a.actionId)
  }

  function ActionAuditName(body: ActionBody): string {
    match body
    case CreateSession(_) => "create"
    case DeleteSession(_) => "delete"
    case SetRecordStatus(_) => "update_status"
    case MarkAllPresent(_) => "update_status"
    case SetSessionStatus(_) => "update_status"
    case SetRecordNote(_) => "update_note"
    case SetSessionNote(_) => "update_note"
    case OtherAction => "update"
  }

  datatype Target = TargetError | TargetConflict(reason: Reason) | Found(row: Row)

  /** loadAttendanceSessionActionTarget; a soft-deleted session is found too. */
  function LoadSession(rows: Rows, a: Action): Target {
    match Lookup(rows, AttendanceSessions, a.sessionId)
    case None => TargetConflict(ForeignKeyMissing)
    case Some(row) =>
      if !row.body.Session? then TargetError
      else if row.body.clubId != a.clubId then TargetConflict(NoPermission)
      else Found(row)
  }

  /** loadAttendanceRecordActionTarget: the record, once its session is found as well. */
  function LoadRecord(rows: Rows, a: Action): Target {
    if Blank(a.recordId) || Blank(a.studentId) then TargetError
    else
      match Lookup(rows, AttendanceRecords, a.recordId.value)
      case None => TargetConflict(ForeignKeyMissing)
      case Some(row) =>
        if !row.body.Attendance? then TargetError
        else if row.body.sessionId != a.sessionId || row.body.studentId != a.studentId.value
          then TargetConflict(ValidationFailed)
        else
          match LoadSession(rows, a)
          case TargetError => TargetError
          case TargetConflict(reason) => TargetConflict(reason)
          case Found(_) => Found(row)
  }

  /** All attendance rows of a session, soft-deleted ones included. */
  function SessionRecordIds(rows: Rows, sessionId: string): set<string> {
    set k | k in rows && k.entity == AttendanceRecords && rows[k].body.Attendance?
      && rows[k].body.sessionId == sessionId :: k.id
  }

  /** The live messages that point at a session. */
  function SessionMessageIds(rows: Rows, sessionId: string): set<string> {
    set k | k in rows && k.entity == StudentMessages && rows[k].deletedAt.None? && rows[k].body.Message?
            && rows[k].body.aboutSession == Some(sessionId) :: k.id
  }

  /** Rows read back as payloads. */
  function ReadBack(env: Env, rows: Rows, entity: EntityName, ids: seq<string>): seq<Record>
    requires forall id | id in ids :: Key(entity, id) in rows
  {
    seq(|ids|, i requires 0 <= i < |ids| => FromRow(env, ids[i], rows[Key(entity, ids[i])]))
  }

  // ----- the actions --------------------------------------------------------

  function ApplyCreateSession(env: Env, caller: Caller, now: Time, db: Db, a: Action, session: Record,
                              records: seq<Record>): ActionStep {
    if !session.body.Session? || (exists r | r in records :: !r.body.Attendance?) then ActionError
    else if session.id != a.sessionId || session.body.clubId != a.clubId then Reported(db, ValidationFailed)
    else
      var existing := Lookup(db.core.rows, AttendanceSessions, a.sessionId);
      if existing.Some? && existing.value.deletedAt.None? then Reported(db, DuplicateValue)
      else
        match Save(env, db, Upsert, a.sessionId, session, now, existing)
        case SaveError => ActionError
        case SaveRefused(reason) => Reported(db, reason)
        case Saved(db1, saved) =>
          CreateRecords(env, now,
                        db1.(audit := db1.audit + [ActionAudit(env, caller, a, session.body.clubId, existing, saved)]),
                        a, saved, records)
  }

  /** The records listed before the first one that names another session. */
  function OwnRecords(records: seq<Record>, sessionId: string): seq<Record> {
    if records == [] || !records[0].body.Attendance? || records[0].body.sessionId != sessionId then []
    else [records[0]] + OwnRecords(records[1..], sessionId)
  }

  /** The second half of create_session: its session row is already written. */
  function CreateRecords(env: Env, now: Time, db: Db, a: Action, saved: Record, records: seq<Record>): ActionStep {
    var own := OwnRecords(records, a.sessionId);
    match CanonicalizeAll(env, db.core.rows, Upsert, own, now)
    case AllError => ActionError
    case AllRefused(reason) => Reported(db, reason)
    case AllCanonical(recs) =>
      if |own| < |records| then Reported(db, ValidationFailed)
      else
        match WriteAll(env, db.core, recs, now)
        case None => ActionError
        case Some(core) => Performed(db.(core := core), [saved] + recs)
  }

  function ApplySetRecordStatus(env: Env, caller: Caller, now: Time, db: Db, a: Action): ActionStep
    requires a.body.SetRecordStatus?
  {
    match LoadRecord(db.core.rows, a)
    case TargetError => ActionError
    case TargetConflict(reason) => Reported(db, reason)
    case Found(row) =>
      if a.body.mark.None? then ActionError
      else
        var doc := FromRow(env, a.recordId.value, row);
        SaveAudited(env, caller, now, db, a,
                    doc.(body := MarkFields(doc.body, a.body.mark.value.0, a.body.mark.value.1)), row)
  }

  function MarkFields(body: Fields, status: string, checkInAt: Option<string>): Fields {
    if body.Attendance? then body.(attendanceStatus := status, checkInAt := checkInAt) else body
  }

  /** A single-row action: save, then audit. */
  function SaveAudited(env: Env, caller: Caller, now: Time, db: Db, a: Action, doc: Record, row: Row): ActionStep {
    match Save(env, db, Upsert, doc.id, doc, now, Some(row))
    case SaveError => ActionError
    case SaveRefused(reason) => Reported(db, reason)
    case Saved(db1, saved) =>
      Performed(db1.(audit := db1.audit + [ActionAudit(env, caller, a, a.clubId, Some(row), saved)]), [saved])
  }

  function ApplySetSession(env: Env, caller: Caller, now: Time, db: Db, a: Action): ActionStep
    requires a.body.SetSessionNote? || a.body.SetSessionStatus?
  {
    match LoadSession(db.core.rows, a)
    case TargetError => ActionError
    case TargetConflict(reason) => Reported(db, reason)
    case Found(row) =>
      var doc := FromRow(env, a.sessionId, row);
      if a.body.SetSessionNote? then
        if a.body.note.None? then ActionError
        else SaveAudited(env, caller, now, db, a,
                         doc.(body := SessionFields(doc.body, row.body.status, a.body.note.value)), row)
      else
        if a.body.newStatus.None? then ActionError
        else SaveAudited(env, caller, now, db, a,
                         doc.(body := SessionFields(doc.body, a.body.newStatus.value, row.body.notes)), row)
  }

  function SessionFields(body: Fields, status: string, notes: Option<string>): Fields {
    if body.Session? then Session(body.clubId, body.sessionDate, status, notes) else body
  }

  function Keep(ids: seq<string>, wanted: set<string>): seq<string> {
    if ids == [] then []
    else
      var n := |ids| - 1;
      Keep(ids[..n], wanted) + if ids[n] in wanted then [ids[n]] else []
  }

  /** The present-marked payloads of the wanted records of a session. */
  function PresentDocs(env: Env, rows: Rows, ids: seq<string>, checkInAt: Option<string>): seq<Record> {
    if ids == [] then []
    else
      var n := |ids| - 1;
      var front := PresentDocs(env, rows, ids[..n], checkInAt);
      match Lookup(rows, AttendanceRecords, ids[n])
      case None => front
      case Some(row) =>
        var doc := FromRow(env, ids[n], row);
        front + [doc.(body := MarkFields(doc.body, "present", checkInAt))]
  }

  function ApplyMarkAllPresent(env: Env, now: Time, db: Db, a: Action): ActionStep
    requires a.body.MarkAllPresent?
  {
    match LoadSession(db.core.rows, a)
    case TargetError => ActionError
    case TargetConflict(reason) => Reported(db, reason)
    case Found(_) =>
      if a.body.targets.None? then ActionError
      else
        var (ids, checkInAt) := a.body.targets.value;
        if ids == [] then Performed(db, [])
        else if "" in ids then Reported(db, ValidationFailed)
        else
          var wanted := set id | id in ids;
          var inSession := SessionRecordIds(db.core.rows, a.sessionId);
          var docs := PresentDocs(env, db.core.rows, Keep(env.listing(inSession), wanted), checkInAt);
          match CanonicalizeAll(env, db.core.rows, Upsert, docs, now)
          case AllError => ActionError
          case AllRefused(reason) => Reported(db, reason)
          case AllCanonical(recs) =>
            if !(wanted <= inSession) then Reported(db, ForeignKeyMissing)
            else
              match WriteAll(env, db.core, recs, now)
              case None => ActionError
              case Some(core) => Performed(db.(core := core), recs)
  }

  /** attendanceMessageID */
  function NoteMessageId(recordId: string): string {
    "attendance-note-" + recordId
  }

  function ApplySetRecordNote(env: Env, caller: Caller, now: Time, db: Db, a: Action): ActionStep
    requires a.body.SetRecordNote?
  {
    match LoadRecord(db.core.rows, a)
    case TargetError => ActionError
    case TargetConflict(reason) => Reported(db, reason)
    case Found(row) =>
      if a.body.note.None? then ActionError
      else
        var doc := FromRow(env, a.recordId.value, row);
        var noted := doc.(body := NoteFields(doc.body, a.body.note.value));
        match Save(env, db, Upsert, noted.id, noted, now, Some(row))
        case SaveError => ActionError
        case SaveRefused(reason) => Reported(db, reason)
        case Saved(db1, saved) =>
          match SyncNoteMessage(env, caller, now, db1, a, noted)
          case ActionError => ActionError
          case Reported(db2, reason) => Reported(db2, reason)
          case Performed(db2, _) =>
            Performed(db2.(audit := db2.audit + [ActionAudit(env, caller, a, a.clubId, Some(row), saved)]), [saved])
  }

  function NoteFields(body: Fields, notes: Option<string>): Fields {
    if body.Attendance? then body.(notes := notes) else body
  }

  predicate BlankNote(notes: Option<string>) {
    notes.None? || TrimSpace(notes.value) == ""
  }

  /** syncAttendanceRecordMessage: mirror the note of a record as a message of its student. */
  function SyncNoteMessage(env: Env, caller: Caller, now: Time, db: Db, a: Action, noted: Record): ActionStep {
    if !noted.body.Attendance? then ActionError
    else if BlankNote(noted.body.notes) then RemoveNoteMessage(env, now, db, NoteMessageId(noted.id))
    else
      match Lookup(db.core.rows, AttendanceSessions, a.sessionId)
      case None => ActionError
      case Some(session) =>
        if !session.body.Session? then ActionError else WriteNoteMessage(env, caller, now, db, a, session, noted)
  }

  function RemoveNoteMessage(env: Env, now: Time, db: Db, messageId: string): ActionStep {
    match Lookup(db.core.rows, StudentMessages, messageId)
    case None => Performed(db, [])
    case Some(message) =>
      match Save(env, db, Delete, messageId, FromRow(env, messageId, message), now, Some(message))
      case SaveError => ActionError
      case SaveRefused(reason) => Reported(db, reason)
      case Saved(db1, _) => Performed(db1, [])
  }

  function WriteNoteMessage(env: Env, caller: Caller, now: Time, db: Db, a: Action, session: Row,
                            noted: Record): ActionStep
    requires session.body.Session? && noted.body.Attendance? && !BlankNote(noted.body.notes)
  {
    var messageId := NoteMessageId(noted.id);
    var existing := Lookup(db.core.rows, StudentMessages, messageId);
    match Save(env, db, Upsert, messageId, NoteMessage(env, caller, a, session, noted, existing), now, existing)
    case SaveError => ActionError
    case SaveRefused(reason) => Reported(db, reason)
    case Saved(db1, _) => Performed(db1, [])
  }

  /** The mirror message; its author is the caller. */
  function NoteMessage(env: Env, caller: Caller, a: Action, session: Row, noted: Record, existing: Option<Row>): Record
    requires session.body.Session? && noted.body.Attendance? && noted.body.notes.Some?
  {
    Record(NoteMessageId(noted.id), if existing.Some? then env.formatTime(existing.value.createdAt) else "",
           "", "", "", None,
           Message(noted.body.studentId, session.body.clubId, "attendance_note", TrimSpace(noted.body.notes.value),
                   Some(caller.userId), caller.userId, Some(a.sessionId), Some(noted.id),
                   Some(env.formatDate(session.body.sessionDate)), Some(noted.body.attendanceStatus)))
  }

  function ApplyDeleteSession(env: Env, caller: Caller, now: Time, db: Db, a: Action): ActionStep
    requires a.body.DeleteSession?
  {
    match LoadSession(db.core.rows, a)
    case TargetError => ActionError
    case TargetConflict(reason) => Reported(db, reason)
    case Found(row) =>
      if !a.body.decodes then ActionError
      else
        match Save(env, db, Delete, a.sessionId, FromRow(env, a.sessionId, row), now, Some(row))
        case SaveError => ActionError
        case SaveRefused(reason) => Reported(db, reason)
        case Saved(db1, saved) => DeleteSessionRecords(env, caller, now, db1, a, row, saved)
  }

  /** After the session's own tombstone: its records. */
  function DeleteSessionRecords(env: Env, caller: Caller, now: Time, db: Db, a: Action, row: Row,
                                saved: Record): ActionStep {
    match DeleteListed(env, now, db, AttendanceRecords, SessionRecordIds(db.core.rows, a.sessionId))
    case ActionError => ActionError
    case Reported(_, reason) => Reported(db, reason)
    case Performed(db1, deleted) => DeleteSessionMessages(env, caller, now, db1, a, row, saved, deleted)
  }

  /** Then the messages that point at it, then the audit row. */
  function DeleteSessionMessages(env: Env, caller: Caller, now: Time, db: Db, a: Action, row: Row, saved: Record,
                                 deleted: seq<Record>): ActionStep {
    match DeleteListed(env, now, db, StudentMessages, SessionMessageIds(db.core.rows, a.sessionId))
    case ActionError => ActionError
    case Reported(_, reason) => Reported(db, reason)
    case Performed(db1, _) =>
      Performed(db1.(audit := db1.audit + [ActionAudit(env, caller, a, a.clubId, Some(row), saved)]), [saved] + deleted)
  }

  /** Tombstones for the listed rows of one table: canonicalized first, then written as a batch. */
  function DeleteListed(env: Env, now: Time, db: Db, entity: EntityName, ids: set<string>): ActionStep {
    var order := env.listing(ids);
    if exists id | id in order :: Key(entity, id) !in db.core.rows then ActionError
    else
      match CanonicalizeAll(env, db.core.rows, Delete, ReadBack(env, db.core.rows, entity, order), now)
      case AllError => ActionError
      case AllRefused(reason) => Reported(db, reason)
      case AllCanonical(recs) =>
        match WriteAll(env, db.core, recs, now)
        case None => ActionError
        case Some(core) => Performed(db.(core := core), recs)
  }

  /** applyAttendanceAction */
  function ApplyAction(env: Env, caller: Caller, now: Time, db: Db, a: Action): ActionStep {
    match a.body
    case CreateSession(content) =>
      if content.None? then ActionError
      else ApplyCreateSession(env, caller, now, db, a, content.value.0, content.value.1)
    case SetRecordStatus(_) => ApplySetRecordStatus(env, caller, now, db, a)
    case MarkAllPresent(_) => ApplyMarkAllPresent(env, now, db, a)
    case SetRecordNote(_) => ApplySetRecordNote(env, caller, now, db, a)
    case SetSessionNote(_) => ApplySetSession(env, caller, now, db, a)
    case SetSessionStatus(_) => ApplySetSession(env, caller, now, db, a)
    case DeleteSession(_) => ApplyDeleteSession(env, caller, now, db, a)
    case OtherAction => ActionError
  }

  // ----- the request --------------------------------------------------------

  /** validateAttendanceAction */
  predicate WellFormedAction(env: Env, a: Action) {
    && a.actionId != "" && a.clubId != "" && a.sessionId != "" && a.clientOccurredAt != ""
    && env.parseTime(a.clientOccurredAt).Some?
    && !a.body.OtherAction?
  }

  datatype ActionOutcome = Done(changed: seq<Record>) | Refused(reason: Reason) | DoneBefore

  datatype ActionRound = RoundFailed | Round(db: Db, outcome: ActionOutcome)

  datatype ActionsResult = ActionsFailed | ActionsPushed(db: Db, outcomes: seq<ActionOutcome>)

  /** One round of the PushAttendanceActions loop. */
  function ActionOne(env: Env, caller: Caller, device: string, now: Time, db: Db, a: Action): ActionRound {
    if !WellFormedAction(env, a) then RoundFailed
    else if (device, a.actionId) in db.processed then Round(db, DoneBefore)
    else
      match Decide(caller.permissions(a.clubId), AttendanceWrite)
      case AuthorizerError => RoundFailed
      case Denied => Round(db, Refused(NoPermission))
      case Granted =>
        match ApplyAction(env, caller, now, db, a)
        case ActionError => RoundFailed
        case Reported(after, reason) => Round(after, Refused(reason))
        case Performed(after, changed) =>
          Round(after.(processed := after.processed + {(device, a.actionId)}), Done(changed))
  }

  function ActionsAll(env: Env, caller: Caller, device: string, now: Time, db: Db,
                      actions: seq<Action>): ActionsResult {
    if actions == [] then ActionsPushed(db, [])
    else
      match ActionsAll(env, caller, device, now, db, actions[..|actions| - 1])
      case ActionsFailed => ActionsFailed
      case ActionsPushed(before, outcomes) =>
        match ActionOne(env, caller, device, now, before, actions[|actions| - 1])
        case RoundFailed => ActionsFailed
        case Round(after, outcome) => ActionsPushed(after, outcomes + [outcome])
  }
}
