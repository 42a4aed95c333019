/** What Push answers to each mutation, and what it writes, by what the database holds before it. */
module PushOutcomes {
  import opened Text
  import opened Records
  import opened Tables
  import opened Lookups
  import opened History
  import opened Authorization
  import opened AccessRules
  import opened Canonical
  import opened CanonicalProofs
  import opened PushSpec
  import opened PushProofs

  // ----- the conditions ---------------------------------------------------------------

  const WEEKDAYS := {"mon", "tue", "wed", "thu", "fri", "sat", "sun"}

  const STATUSES := {"unmarked", "present", "late", "excused", "left_early", "absent"}

  /** A required field is missing or outside its vocabulary: the whole request fails. */
  ghost predicate Incomplete(operation: Operation, body: Fields) {
    match body
    case Club(_, name, _, _, _, _, _) => name == ""
    case ClubGroup(clubId, name, _, _) => clubId == "" || name == ""
    case ClubSchedule(clubId, weekday, _) => clubId == "" || weekday !in WEEKDAYS
    case BeltRank(name, order, _, _) => name == "" || order <= 0
    case Student(_, fullName, _, _, _, _, _, clubId, _, beltRankId, _, _, _) =>
      fullName == "" || clubId == "" || beltRankId == ""
    case Message(studentId, clubId, kind, content, authorUserId, authorName, _, _, _, _) =>
      || studentId == "" || clubId == "" || kind !in {"manual", "attendance_note"}
      || (!operation.Delete? && kind == "manual"
          && (TrimSpace(authorName) == "" || Blank(authorUserId) || TrimSpace(content) == ""))
    case Profile(studentId, mode) => studentId == "" || mode !in {"inherit", "custom"}
    case StudentSchedule(studentId, weekday, _) => studentId == "" || weekday !in WEEKDAYS
    case Session(clubId, sessionDate, status, _) =>
      clubId == "" || sessionDate == "" || status !in {"draft", "completed"}
    case Attendance(sessionId, studentId, status, _, _) =>
      sessionId == "" || studentId == "" || status !in STATUSES
  }

  /** Notes about attendance are the server's own; clients may only delete them. */
  ghost predicate ReservedKind(operation: Operation, body: Fields) {
    body.Message? && !operation.Delete? && body.messageType == "attendance_note"
  }

  ghost predicate BadCode(body: Fields) {
    body.Student? && !Blank(body.studentCode) && !MatchesStudentCode(body.studentCode.value)
  }

  /** The texts of the payload can be put into columns; a delete replaces the client's deletedAt. */
  ghost predicate Sendable(env: Env, operation: Operation, doc: Record) {
    && (doc.createdAt == "" || env.parseTime(doc.createdAt).Some?)
    && (operation.Delete? || doc.deletedAt.None? || env.parseTime(doc.deletedAt.value).Some?)
    && match doc.body
       case BeltRank(_, order, _, _) => -0x8000_0000 <= order < 0x8000_0000
       case Student(_, _, born, _, _, _, _, _, _, _, joined, _, _) => DateOrNone(env, born) && DateOrNone(env, joined)
       case Message(_, _, _, _, _, _, _, _, aboutDate, _) => DateOrNone(env, aboutDate)
       case Session(_, sessionDate, _, _) => env.parseDate(sessionDate).Some?
       case Attendance(_, _, _, checkInAt, _) =>
         checkInAt.None? || checkInAt.value == "" || env.parseTime(checkInAt.value).Some?
       case _ => true
  }

  /** An absent or empty text is no date. */
  ghost predicate DateOrNone(env: Env, text: Option<string>) {
    text.None? || text.value == "" || env.parseDate(text.value).Some?
  }

  /** The references that are not looked up before the write are stored as well. */
  ghost predicate KeysHold(users: set<string>, rows: Rows, operation: Operation, body: Fields) {
    match body
    case Student(_, _, _, _, _, _, _, _, groupId, _, _, _, _) =>
      groupId == Some("") ==> Stored(rows, ClubGroups, "")
    case Message(_, _, _, _, author, _, aboutSession, aboutRecord, _, _) =>
      && (author.Some? ==> author.value in users)
      && (aboutSession.Some? ==> Stored(rows, AttendanceSessions, aboutSession.value))
      && (aboutRecord.Some? ==> Stored(rows, AttendanceRecords, aboutRecord.value))
    case Attendance(sessionId, studentId, _, _, _) =>
      operation.Delete? ==> Stored(rows, AttendanceSessions, sessionId) && Stored(rows, Students, studentId)
    case _ => true
  }

  /** The unique values that are not looked up before the write, or only among live rows, are free as well. */
  ghost predicate IndexesFree(rows: Rows, counter: nat, operation: Operation, id: string, doc: Record) {
    match doc.body
    case Club(code, _, _, _, _, _, _) =>
      operation.Delete? || doc.deletedAt.Some? || code.None? || !ClubCodeTaken(rows, code.value, id)
    case Student(code, _, _, _, _, _, _, _, _, _, _, _, _) =>
      forall k | k in rows && k.entity == Students && k.id != id ::
        !(rows[k].body.Student? && rows[k].body.studentCode == Some(CodeFor(code, counter)))
    case Profile(studentId, _) =>
      forall k | k in rows && k.entity == StudentScheduleProfiles && k.id != id ::
        !(rows[k].body.Profile? && rows[k].body.studentId == studentId)
    case _ => true
  }

  /** The code a student is stored with: their own, or the next one of the server. */
  function CodeFor(code: Option<string>, counter: nat): string {
    if Blank(code) then StudentCode(counter + 1) else code.value
  }

  function CounterAfter(body: Fields, counter: nat): nat {
    if body.Student? && Blank(body.studentCode) then counter + 1 else counter
  }

  /** The payload as it is stored, logged and answered: the client's fields under the server's times. */
  ghost predicate SentAs(env: Env, m: Mutation, doc: Record, counter: nat, now: Time, rec: Record) {
    && rec.id == m.recordId && rec.syncStatus == "synced"
    && rec.createdAt == (if doc.createdAt == "" then env.formatTime(now) else doc.createdAt)
    && rec.updatedAt == rec.lastModifiedAt == env.formatTime(now)
    && rec.deletedAt == (if m.operation.Delete? then Some(env.formatTime(now)) else doc.deletedAt)
    && match doc.body
       case Student(code, _, _, _, _, _, _, _, _, _, _, _, _) =>
         rec.body == doc.body.(studentCode := Some(CodeFor(code, counter)))
       case Message(_, _, _, content, _, _, _, _, _, _) => rec.body == doc.body.(content := TrimSpace(content))
       case _ => rec.body == doc.body
  }

  /** What an applied mutation leaves: one row, one log row, one audit row, one processed pair. */
  ghost predicate AppliedAs(env: Env, caller: Caller, device: string, now: Time, db: Db, m: Mutation, doc: Record,
                            scope: Scope, after: Db, rec: Record) {
    var key := Key(m.entity, m.recordId);
    && SentAs(env, m, doc, db.counter, now, rec)
    && ToRow(env, rec).Some?
    && (var row := ToRow(env, rec).value;
        after.core.rows == db.core.rows[key := if key in db.core.rows
                                               then row.(createdAt := db.core.rows[key].createdAt) else row])
    && after.core.log == db.core.log + [LogRow(db.core.nextId, rec, now)]
    && after.core.nextId == db.core.nextId + 1
    && after.processed == db.processed + {(device, m.mutationId)}
    && after.counter == CounterAfter(doc.body, db.counter)
    && |after.audit| == |db.audit| + 1 && db.audit <= after.audit
    && after.audit[|db.audit|].actor == caller.userId
    && after.audit[|db.audit|].club == (if scope.ClubScope? then Some(scope.clubId) else None)
  }

  /** The answer to a fresh mutation of a club, or of everyone, in the order in which the conditions count. */
  ghost predicate AnsweredAs(env: Env, caller: Caller, device: string, now: Time, db: Db, m: Mutation, scope: Scope,
                             step: Step)
    requires !m.entity.OtherEntity?
  {
    var rows := db.core.rows;
    var key := Key(m.entity, m.recordId);
    var permissions := caller.permissions(if scope.ClubScope? then scope.clubId else "");
    if permissions.None? then step == Failed
    else if NeededToWrite(m.entity, m.operation) !in permissions.value then
      step == Stepped(db, Conflicted(NoPermission))
    else if key in rows && TextLess(m.clientModifiedAt, env.formatTime(rows[key].lastModifiedAt)) then
      step == Stepped(db, Conflicted(StaleWrite))
    else if !m.record.Decoded? || EntityOf(m.record.rec.body) != m.entity then step == Failed
    else PayloadAnsweredAs(env, caller, device, now, db, m, m.record.rec, scope, step)
  }

  /** The answer to a payload, once its sender is permitted and up to date. */
  ghost predicate PayloadAnsweredAs(env: Env, caller: Caller, device: string, now: Time, db: Db, m: Mutation,
                                    doc: Record, scope: Scope, step: Step)
  {
    var rows := db.core.rows;
    if Incomplete(m.operation, doc.body) then step == Failed
    else if ReservedKind(m.operation, doc.body) then step == Stepped(db, Conflicted(ValidationFailed))
    else if doc.body.Session? && ReopensLate(env, m.operation, doc.body.status, now, Lookup(rows, m.entity, m.recordId))
    then step == Stepped(db, Conflicted(BusinessRule))
    else if !ReferencesLive(rows, m.operation, doc.body) then step == Stepped(db, Conflicted(ForeignKeyMissing))
    else if BadCode(doc.body) then step == Stepped(db, Conflicted(ValidationFailed))
    else if !ValueFree(env, rows, db.counter, m.operation, m.recordId, doc.body) then
      step == Stepped(db.(counter := CounterAfter(doc.body, db.counter)), Conflicted(DuplicateValue))
    else if !Sendable(env, m.operation, doc) || !KeysHold(env.users, rows, m.operation, doc.body)
            || !IndexesFree(rows, db.counter, m.operation, m.recordId, doc) then step == Failed
    else
      && step.Stepped? && step.outcome.Applied?
      && AppliedAs(env, caller, device, now, db, m, doc, scope, step.db, step.outcome.record)
  }

  // ----- the checks ---------------------------------------------------------------------

  /** The verdict on a payload, condition by condition. */
  lemma VerdictExactly(env: Env, rows: Rows, counter: nat, operation: Operation, id: string, body: Fields, now: Time,
                       existing: Option<Row>)
    ensures var v := Vet(env, rows, counter, operation, id, body, now, existing);
      if Incomplete(operation, body) then v == Fail
      else if ReservedKind(operation, body) then v == Refuse(ValidationFailed, counter)
      else if body.Session? && ReopensLate(env, operation, body.status, now, existing) then
        v == Refuse(BusinessRule, counter)
      else if !ReferencesLive(rows, operation, body) then v == Refuse(ForeignKeyMissing, counter)
      else if BadCode(body) then v == Refuse(ValidationFailed, counter)
      else if !ValueFree(env, rows, counter, operation, id, body) then
        v == Refuse(DuplicateValue, CounterAfter(body, counter))
      else v.Accept?
  {
    hide GroupNameTaken, ClubWeekdayTaken, BeltOrderTaken, StudentCodeTaken, StudentWeekdayTaken, AttendanceTaken,
      StudentCode, MatchesStudentCode, TrimSpace, Live, ReopensLate;
  }

  /** An accepted payload is stored exactly if it can be sent and the database has nothing against it. */
  lemma AcceptedIsWritten(env: Env, db: Db, m: Mutation, now: Time, existing: Option<Row>)
    requires ValidEnv(env) && Tagged(db.core.rows) && m.record.Decoded? && (m.operation.Upsert? || m.operation.Delete?)
    requires var body := m.record.rec.body;
      EntityOf(body) == m.entity
      && Vet(env, db.core.rows, db.counter, m.operation, m.recordId, body, now, existing).Accept?
    ensures var rows, doc := db.core.rows, m.record.rec;
      var c := Canonicalize(env, rows, db.counter, m.entity, m.operation, m.recordId, m.record, now, existing);
      && c.Canonical? && SentAs(env, m, doc, db.counter, now, c.record)
      && c.newCounter == CounterAfter(doc.body, db.counter)
      && (Write(env, db.core, c.record, now).Some? <==>
            && Sendable(env, m.operation, doc) && KeysHold(env.users, rows, m.operation, doc.body)
            && IndexesFree(rows, db.counter, m.operation, m.recordId, doc))
  {
    hide Vet, ToRow, SentAs, Sendable, KeysHold, IndexesFree, ForeignKeysHold, FitsIndexes, FieldsValid,
      ReferencesLive, ValueFree, Canonicalize, CounterAfter, Tagged, ValidEnv;
    var rows, doc := db.core.rows, m.record.rec;
    AcceptedExactly(env, rows, db.counter, m.operation, m.recordId, doc.body, now, existing);
    AcceptedIsSent(env, rows, db.counter, m, now, existing);
    var rec := Canonicalize(env, rows, db.counter, m.entity, m.operation, m.recordId, m.record, now, existing).record;
    SentRow(env, m, doc, db.counter, now, rec);
    if ToRow(env, rec).Some? {
      var row := ToRow(env, rec).value;
      SentKeys(env, rows, m, doc, db.counter, now, rec);
      SentIndexes(env, rows, m, doc, db.counter, now, rec, existing);
    }
  }

  lemma AcceptedIsSent(env: Env, rows: Rows, counter: nat, m: Mutation, now: Time, existing: Option<Row>)
    requires m.record.Decoded? && EntityOf(m.record.rec.body) == m.entity
    requires Vet(env, rows, counter, m.operation, m.recordId, m.record.rec.body, now, existing).Accept?
    ensures var c := Canonicalize(env, rows, counter, m.entity, m.operation, m.recordId, m.record, now, existing);
      && c.Canonical? && SentAs(env, m, m.record.rec, counter, now, c.record)
      && c.newCounter == CounterAfter(m.record.rec.body, counter)
  {
    AcceptKeepsFields(env, rows, counter, m.operation, m.recordId, m.record.rec.body, now, existing);
    hide Vet, StudentCode, TrimSpace;
  }

  lemma SentRow(env: Env, m: Mutation, doc: Record, counter: nat, now: Time, rec: Record)
    requires ValidEnv(env) && SentAs(env, m, doc, counter, now, rec)
    ensures ToRow(env, rec).Some? <==> Sendable(env, m.operation, doc)
  {
    assert env.parseTime(env.formatTime(now)) == Some(now);
  }

  lemma SentKeys(env: Env, rows: Rows, m: Mutation, doc: Record, counter: nat, now: Time, rec: Record)
    requires SentAs(env, m, doc, counter, now, rec) && ToRow(env, rec).Some?
    requires FieldsValid(m.operation, doc.body) && ReferencesLive(rows, m.operation, doc.body)
    ensures ForeignKeysHold(env.users, rows, ToRow(env, rec).value.body) <==>
      KeysHold(env.users, rows, m.operation, doc.body)
  {
  }

  lemma SentIndexes(env: Env, rows: Rows, m: Mutation, doc: Record, counter: nat, now: Time, rec: Record,
                    existing: Option<Row>)
    requires Tagged(rows) && EntityOf(doc.body) == m.entity && (m.operation.Upsert? || m.operation.Delete?)
    requires m.record == Decoded(doc)
    requires Canonicalize(env, rows, counter, m.entity, m.operation, m.recordId, m.record, now, existing).Canonical?
    requires rec == Canonicalize(env, rows, counter, m.entity, m.operation, m.recordId, m.record, now, existing).record
    requires SentAs(env, m, doc, counter, now, rec) && ToRow(env, rec).Some?
    requires FieldsValid(m.operation, doc.body)
    ensures FitsIndexes(rows, KeyOf(rec), ToRow(env, rec).value) <==>
      IndexesFree(rows, counter, m.operation, m.recordId, doc)
  {
    hide Canonicalize, StudentCode, TrimSpace;
    if UniquenessChecked(m.entity) {
      CanonicalFitsIndexes(env, rows, counter, m.entity, m.operation, m.recordId, m.record, now, existing);
      hide FitsIndexes, ToRow;
    } else {
      OtherIndexes(env, rows, m, doc, counter, now, rec);
    }
  }

  lemma OtherIndexes(env: Env, rows: Rows, m: Mutation, doc: Record, counter: nat, now: Time, rec: Record)
    requires Tagged(rows) && EntityOf(doc.body) == m.entity && !UniquenessChecked(m.entity)
    requires SentAs(env, m, doc, counter, now, rec) && ToRow(env, rec).Some?
    requires FieldsValid(m.operation, doc.body) && (m.operation.Upsert? || m.operation.Delete?)
    ensures FitsIndexes(rows, KeyOf(rec), ToRow(env, rec).value) <==>
      IndexesFree(rows, counter, m.operation, m.recordId, doc)
  {
    hide StudentCode, TrimSpace, IsWeekday, MatchesStudentCode;
    assert forall k | k in rows :: EntityOf(rows[k].body) == k.entity;
  }

  // ----- the answer -----------------------------------------------------------------------

  /** A mutation names its id, its record, a time that parses, and one of the two operations. */
  ghost predicate Complete(env: Env, m: Mutation) {
    && m.mutationId != "" && m.recordId != "" && m.clientModifiedAt != "" && env.parseTime(m.clientModifiedAt).Some?
    && (m.operation == Upsert || m.operation == Delete)
  }

  /** The answer to every mutation. It fails if it is not complete; if this device has sent it before nothing happens; a
      fresh one fails if its entity is unknown or it belongs nowhere, and is otherwise answered as its club's
      permissions, the stored row and the payload say. */
  lemma PushOutcome(env: Env, caller: Caller, device: string, now: Time, db: Db, m: Mutation)
    requires ValidEnv(env) && Tagged(db.core.rows)
    ensures var step := PushOne(env, caller, device, now, db, m);
      if !Complete(env, m) then step == Failed
      else if (device, m.mutationId) in db.processed then step == Stepped(db, AlreadyProcessed)
      else if m.entity.OtherEntity? then step == Failed
      else
        && ((forall scope :: !SpeaksFor(db.core.rows, m, scope)) ==> step == Failed)
        && (forall scope | SpeaksFor(db.core.rows, m, scope) ::
              AnsweredAs(env, caller, device, now, db, m, scope, step))
  {
    assert Complete(env, m) <==> WellFormed(env, m);
    hide MutationScope, WellFormed, Complete, AnsweredAs, SpeaksFor, PushFresh;
    if WellFormed(env, m) && (device, m.mutationId) !in db.processed && !m.entity.OtherEntity? {
      FreshOutcome(env, caller, device, now, db, m);
    }
  }

  lemma FreshOutcome(env: Env, caller: Caller, device: string, now: Time, db: Db, m: Mutation)
    requires ValidEnv(env) && Tagged(db.core.rows)
    requires WellFormed(env, m) && (device, m.mutationId) !in db.processed && !m.entity.OtherEntity?
    ensures var step := PushOne(env, caller, device, now, db, m);
      && ((forall scope :: !SpeaksFor(db.core.rows, m, scope)) ==> step == Failed)
      && (forall scope | SpeaksFor(db.core.rows, m, scope) ::
            AnsweredAs(env, caller, device, now, db, m, scope, step))
  {
    hide MutationScope, WellFormed, AnsweredAs, SpeaksFor;
    forall scope | SpeaksFor(db.core.rows, m, scope)
      ensures AnsweredAs(env, caller, device, now, db, m, scope, PushOne(env, caller, device, now, db, m))
    {
      FreshAnswered(env, caller, device, now, db, m, scope);
    }
    var scope := MutationScope(db.core.rows, m, Lookup(db.core.rows, m.entity, m.recordId));
    if scope.Some? {
      ScopeExactly(db.core.rows, m, scope.value);
    }
  }

  lemma FreshAnswered(env: Env, caller: Caller, device: string, now: Time, db: Db, m: Mutation, scope: Scope)
    requires ValidEnv(env) && Tagged(db.core.rows) && SpeaksFor(db.core.rows, m, scope)
    requires WellFormed(env, m) && !m.entity.OtherEntity?
    ensures AnsweredAs(env, caller, device, now, db, m, scope, PushFresh(env, caller, device, now, db, m))
  {
    hide MutationScope, SpeaksFor, Canonicalize, Write, PayloadAnsweredAs;
    ScopeExactly(db.core.rows, m, scope);
    var existing := Lookup(db.core.rows, m.entity, m.recordId);
    if Authorize(caller, db.core.rows, m, existing) == Allowed(scope) && !IsStale(env, m, existing) {
      NothingDecoded(env, db, m, now, existing);
      if DecodeAs(m.entity, m.record).Some? {
        PayloadAnswered(env, caller, device, now, db, m, scope);
      }
    }
  }

  lemma NothingDecoded(env: Env, db: Db, m: Mutation, now: Time, existing: Option<Row>)
    ensures DecodeAs(m.entity, m.record).None? ==>
      Canonicalize(env, db.core.rows, db.counter, m.entity, m.operation, m.recordId, m.record, now, existing).Broken?
  {
  }

  lemma PayloadAnswered(env: Env, caller: Caller, device: string, now: Time, db: Db, m: Mutation, scope: Scope)
    requires ValidEnv(env) && Tagged(db.core.rows) && DecodeAs(m.entity, m.record).Some? && WellFormed(env, m)
    requires m.recordId != ""
    requires var existing := Lookup(db.core.rows, m.entity, m.recordId);
      && Authorize(caller, db.core.rows, m, existing) == Allowed(scope)
      && !IsStale(env, m, existing) && SpeaksFor(db.core.rows, m, scope)
    ensures PayloadAnsweredAs(env, caller, device, now, db, m, m.record.rec, scope,
                              PushFresh(env, caller, device, now, db, m))
  {
    hide Vet, Authorize, IsStale, Write, Incomplete, ReservedKind, ReopensLate, ReferencesLive, BadCode, ValueFree,
      Sendable, KeysHold, IndexesFree, AppliedAs, SentAs, PushFresh, Canonicalize, WellFormed, Tagged, ValidEnv,
      SpeaksFor;
    var rows, body := db.core.rows, m.record.rec.body;
    var existing := Lookup(rows, m.entity, m.recordId);
    VerdictExactly(env, rows, db.counter, m.operation, m.recordId, body, now, existing);
    FreshByVerdict(env, caller, device, now, db, m, scope);
    if Vet(env, rows, db.counter, m.operation, m.recordId, body, now, existing).Accept? {
      KnownOperation(env, m);
      AcceptedIsWritten(env, db, m, now, existing);
      SpeaksForSomeone(rows, m, scope);
      var c := Canonicalize(env, rows, db.counter, m.entity, m.operation, m.recordId, m.record, now, existing);
      if Write(env, db.core, c.record, now).Some? {
        AppliedWhole(env, caller, device, now, db, m, scope, c.record);
      }
    }
  }

  lemma KnownOperation(env: Env, m: Mutation)
    requires WellFormed(env, m)
    ensures m.operation.Upsert? || m.operation.Delete?
  {
  }

  lemma SpeaksForSomeone(rows: Rows, m: Mutation, scope: Scope)
    requires SpeaksFor(rows, m, scope) && m.recordId != ""
    ensures scope.ClubScope? ==> scope.clubId != ""
  {
  }

  /** The answer to a permitted and current mutation, by the verdict on its payload. */
  lemma FreshByVerdict(env: Env, caller: Caller, device: string, now: Time, db: Db, m: Mutation, scope: Scope)
    requires DecodeAs(m.entity, m.record).Some?
    requires var existing := Lookup(db.core.rows, m.entity, m.recordId);
      Authorize(caller, db.core.rows, m, existing) == Allowed(scope) && !IsStale(env, m, existing)
    ensures var rows := db.core.rows;
      var existing := Lookup(rows, m.entity, m.recordId);
      var step := PushFresh(env, caller, device, now, db, m);
      match Vet(env, rows, db.counter, m.operation, m.recordId, m.record.rec.body, now, existing)
      case Fail => step == Failed
      case Refuse(reason, counter) => step == Stepped(db.(counter := counter), Conflicted(reason))
      case Accept(_, counter) =>
        var c := Canonicalize(env, rows, db.counter, m.entity, m.operation, m.recordId, m.record, now, existing);
        && c.Canonical? && c.newCounter == counter
        && step == match Write(env, db.core, c.record, now)
                   case None => Failed
                   case Some(core) =>
                     Stepped(Db(core, db.processed + {(device, m.mutationId)}, counter,
                                db.audit + [MutationAudit(env, caller, scope, m, existing, c.record)]),
                             Applied(c.record))
  {
    hide Vet, Write, Authorize, IsStale;
  }

  /** What an applied mutation leaves. */
  lemma AppliedWhole(env: Env, caller: Caller, device: string, now: Time, db: Db, m: Mutation, scope: Scope,
                     rec: Record)
    requires DecodeAs(m.entity, m.record).Some? && (scope.ClubScope? ==> scope.clubId != "")
    requires SentAs(env, m, m.record.rec, db.counter, now, rec) && Write(env, db.core, rec, now).Some?
    ensures var existing := Lookup(db.core.rows, m.entity, m.recordId);
      AppliedAs(env, caller, device, now, db, m, m.record.rec, scope,
                Db(Write(env, db.core, rec, now).value, db.processed + {(device, m.mutationId)},
                   CounterAfter(m.record.rec.body, db.counter),
                   db.audit + [MutationAudit(env, caller, scope, m, existing, rec)]),
                rec)
  {
    hide ForeignKeysHold, FitsIndexes, ToRow;
  }

  // ----- whole requests ----------------------------------------------------------------

  /** In a request that does not fail, each mutation is answered as the database says once those before it are done:
      already processed, or as its club's permissions, the stored row and the payload say. */
  lemma RequestAnswered(env: Env, caller: Caller, device: string, now: Time, db: Db, ms: seq<Mutation>, i: nat)
    requires ValidEnv(env) && Invariant(env, db.core) && NotAfter(db.core, now)
    requires PushAll(env, caller, device, now, db, ms).Pushed? && i < |ms|
    ensures PushAll(env, caller, device, now, db, ms[..i]).Pushed?
    ensures PushAll(env, caller, device, now, db, ms[..i + 1]).Pushed?
    ensures |PushAll(env, caller, device, now, db, ms).outcomes| == |ms|
    ensures var before, after := PushAll(env, caller, device, now, db, ms[..i]).db,
                                 PushAll(env, caller, device, now, db, ms[..i + 1]).db;
      var outcome := PushAll(env, caller, device, now, db, ms).outcomes[i];
      if (device, ms[i].mutationId) in before.processed then outcome == AlreadyProcessed && after == before
      else
        && !ms[i].entity.OtherEntity?
        && exists scope | SpeaksFor(before.core.rows, ms[i], scope) ::
             AnsweredAs(env, caller, device, now, before, ms[i], scope, Stepped(after, outcome))
  {
    hide PushOne, AnsweredAs, SpeaksFor, Invariant, NotAfter, Evolves, DeletesAsDraft, Tagged, ValidEnv;
    PushPrefix(env, caller, device, now, db, ms, i);
    PushPrefix(env, caller, device, now, db, ms, i + 1);
    assert ms[..i + 1][..i] == ms[..i];
    var before := PushAll(env, caller, device, now, db, ms[..i]).db;
    PushEvolves(env, caller, device, now, db, ms[..i], false);
    EvolvesKeepsInvariant(env, db.core, before.core, now, false);
    InvariantParts(env, before.core);
    assert PushOne(env, caller, device, now, before, ms[i]).Stepped?;
    SteppedMutation(env, caller, device, now, before, ms[i]);
    if (device, ms[i].mutationId) !in before.processed {
      FreshOutcome(env, caller, device, now, before, ms[i]);
    }
  }

  lemma SteppedMutation(env: Env, caller: Caller, device: string, now: Time, db: Db, m: Mutation)
    requires PushOne(env, caller, device, now, db, m).Stepped?
    ensures WellFormed(env, m)
    ensures if (device, m.mutationId) in db.processed
      then PushOne(env, caller, device, now, db, m) == Stepped(db, AlreadyProcessed) else !m.entity.OtherEntity?
  {
    hide PushFresh, WellFormed;
  }

  /** The answer lists every mutation of the request once: its record if it was applied, its id and reason if it
      conflicted, and nothing if it had been processed. */
  lemma AnswerComplete(ms: seq<Mutation>, outcomes: seq<Outcome>)
    requires |ms| == |outcomes|
    ensures var applied, conflicts := AppliedRecords(outcomes), Conflicts(ms, outcomes);
      && (forall rec :: rec in applied <==> Applied(rec) in outcomes)
      && (forall id, reason :: (id, reason) in conflicts <==> HasConflict(ms, outcomes, id, reason))
      && |applied| + |conflicts| + multiset(outcomes)[AlreadyProcessed] == |ms|
  {
    hide AppliedRecords, Conflicts, HasConflict;
    AppliedListed(outcomes);
    ConflictsListed(ms, outcomes);
    AnswerCounts(ms, outcomes);
  }

  /** Some mutation of this id ended in a conflict for this reason. */
  ghost predicate HasConflict(ms: seq<Mutation>, outcomes: seq<Outcome>, id: string, reason: Reason)
    requires |ms| == |outcomes|
  {
    exists i | 0 <= i < |ms| :: ms[i].mutationId == id && outcomes[i] == Conflicted(reason)
  }

  lemma {:induction false} AppliedListed(outcomes: seq<Outcome>)
    ensures forall rec :: rec in AppliedRecords(outcomes) <==> Applied(rec) in outcomes
  {
    if outcomes != [] {
      var n := |outcomes| - 1;
      AppliedListed(outcomes[..n]);
      assert outcomes == outcomes[..n] + [outcomes[n]];
    }
  }

  lemma {:induction false} ConflictsListed(ms: seq<Mutation>, outcomes: seq<Outcome>)
    requires |ms| == |outcomes|
    ensures forall id, reason :: (id, reason) in Conflicts(ms, outcomes) <==> HasConflict(ms, outcomes, id, reason)
  {
    hide HasConflict;
    if ms == [] {
      forall id, reason
        ensures !HasConflict(ms, outcomes, id, reason)
      {
        NoConflictYet(ms, outcomes, id, reason);
      }
    } else {
      var n := |ms| - 1;
      ConflictsListed(ms[..n], outcomes[..n]);
      forall id, reason
        ensures HasConflict(ms, outcomes, id, reason) <==>
          HasConflict(ms[..n], outcomes[..n], id, reason)
          || (ms[n].mutationId == id && outcomes[n] == Conflicted(reason))
      {
        ConflictNext(ms, outcomes, id, reason);
      }
    }
  }

  lemma NoConflictYet(ms: seq<Mutation>, outcomes: seq<Outcome>, id: string, reason: Reason)
    requires |ms| == |outcomes| == 0
    ensures !HasConflict(ms, outcomes, id, reason)
  {
  }

  lemma ConflictNext(ms: seq<Mutation>, outcomes: seq<Outcome>, id: string, reason: Reason)
    requires |ms| == |outcomes| > 0
    ensures var n := |ms| - 1;
      HasConflict(ms, outcomes, id, reason) <==>
        HasConflict(ms[..n], outcomes[..n], id, reason)
        || (ms[n].mutationId == id && outcomes[n] == Conflicted(reason))
  {
    var n := |ms| - 1;
    if i :| 0 <= i < n && ms[..n][i].mutationId == id && outcomes[..n][i] == Conflicted(reason) {
      assert ms[i].mutationId == id && outcomes[i] == Conflicted(reason);
    }
    if i :| 0 <= i < |ms| && ms[i].mutationId == id && outcomes[i] == Conflicted(reason) && i < n {
      assert ms[..n][i].mutationId == id && outcomes[..n][i] == Conflicted(reason);
    }
  }

  lemma {:induction false} AnswerCounts(ms: seq<Mutation>, outcomes: seq<Outcome>)
    requires |ms| == |outcomes|
    ensures |AppliedRecords(outcomes)| + |Conflicts(ms, outcomes)| + multiset(outcomes)[AlreadyProcessed] == |ms|
  {
    if ms != [] {
      var n := |ms| - 1;
      AnswerCounts(ms[..n], outcomes[..n]);
      assert outcomes == outcomes[..n] + [outcomes[n]];
    }
  }
}
