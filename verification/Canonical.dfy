/** canonicalizeMutation: the checks each entity goes through and the record that is stored for it. */
module Canonical {
  import opened Text
  import opened Records
  import opened Tables
  import opened Lookups
  import opened Authorization

  datatype Reason = NoPermission | StaleWrite | ForeignKeyMissing | DuplicateValue | ValidationFailed | BusinessRule

  /** Fields that may be stored, a conflict to report, or an error that ends the request.
      The student-code counter may have moved in the first two cases. */
  datatype Verdict =
    | Accept(fields: Fields, counter: nat)
    | Refuse(reason: Reason, counter: nat)
    | Fail

  predicate IsWeekday(s: string) {
    s in {"mon", "tue", "wed", "thu", "fri", "sat", "sun"}
  }

  predicate IsAttendanceStatus(s: string) {
    s in {"unmarked", "present", "late", "excused", "left_early", "absent"}
  }

  /** fmt.Sprintf("PQQ-%06d", value) */
  function StudentCode(value: nat): string {
    "PQQ-" + if value < 1_000_000 then Padded(value, 6) else Decimal(value)
  }

  /** ^PQQ-\d{6}$ */
  predicate MatchesStudentCode(s: string) {
    |s| == 10 && s[..4] == "PQQ-" && AllDigits(s[4..])
  }

  predicate Blank(s: Option<string>) {
    s.None? || s.value == ""
  }

  function VetClub(body: Fields, counter: nat): Verdict
    requires body.Club?
  {
    if body.name == "" then Fail else Accept(body, counter)
  }

  function VetClubGroup(env: Env, rows: Rows, counter: nat, id: string, body: Fields): Verdict
    requires body.ClubGroup?
  {
    if body.name == "" || body.clubId == "" then Fail
    else if !Live(rows, Clubs, body.clubId) then Refuse(ForeignKeyMissing, counter)
    else if GroupNameTaken(env, rows, body.clubId, body.name, id) then Refuse(DuplicateValue, counter)
    else Accept(body, counter)
  }

  function VetClubSchedule(rows: Rows, counter: nat, id: string, body: Fields): Verdict
    requires body.ClubSchedule?
  {
    if body.clubId == "" || !IsWeekday(body.weekday) then Fail
    else if !Live(rows, Clubs, body.clubId) then Refuse(ForeignKeyMissing, counter)
    else if ClubWeekdayTaken(rows, body.clubId, body.weekday, id) then Refuse(DuplicateValue, counter)
    else Accept(body, counter)
  }

  function VetBeltRank(rows: Rows, counter: nat, id: string, body: Fields): Verdict
    requires body.BeltRank?
  {
    if body.name == "" || body.order < 1 then Fail
    else if BeltOrderTaken(rows, body.order, id) then Refuse(DuplicateValue, counter)
    else Accept(body, counter)
  }

  /** A student without a code gets the next one; the counter moves even if that code turns out to be taken. */
  function VetStudent(rows: Rows, counter: nat, id: string, body: Fields): Verdict
    requires body.Student?
  {
    if body.fullName == "" || body.clubId == "" || body.beltRankId == "" then Fail
    else if !Live(rows, Clubs, body.clubId) then Refuse(ForeignKeyMissing, counter)
    else if !Blank(body.groupId) && !Live(rows, ClubGroups, body.groupId.value) then Refuse(ForeignKeyMissing, counter)
    else if !Live(rows, BeltRanks, body.beltRankId) then Refuse(ForeignKeyMissing, counter)
    else if !Blank(body.studentCode) && !MatchesStudentCode(body.studentCode.value)
      then Refuse(ValidationFailed, counter)
    else
      var counter' := if Blank(body.studentCode) then counter + 1 else counter;
      var code := if Blank(body.studentCode) then StudentCode(counter') else body.studentCode.value;
      if StudentCodeTaken(rows, code, id) then Refuse(DuplicateValue, counter')
      else Accept(body.(studentCode := Some(code)), counter')
  }

  function VetMessage(rows: Rows, counter: nat, operation: Operation, body: Fields): Verdict
    requires body.Message?
  {
    var deleting := operation.Delete?;
    if body.studentId == "" || body.clubId == "" then Fail
    else if body.messageType != "manual" && body.messageType != "attendance_note" then Fail
    else if !deleting && body.messageType == "attendance_note" then Refuse(ValidationFailed, counter)
    else if !deleting && TrimSpace(body.authorName) == "" then Fail
    else if !deleting && Blank(body.authorUserId) then Fail
    else if !deleting && TrimSpace(body.content) == "" then Fail
    else if !Live(rows, Students, body.studentId) then Refuse(ForeignKeyMissing, counter)
    else if !Live(rows, Clubs, body.clubId) then Refuse(ForeignKeyMissing, counter)
    else Accept(body.(content := TrimSpace(body.content)), counter)
  }

  function VetProfile(rows: Rows, counter: nat, body: Fields): Verdict
    requires body.Profile?
  {
    if body.studentId == "" || (body.mode != "inherit" && body.mode != "custom") then Fail
    else if !Live(rows, Students, body.studentId) then Refuse(ForeignKeyMissing, counter)
    else Accept(body, counter)
  }

  function VetStudentSchedule(rows: Rows, counter: nat, id: string, body: Fields): Verdict
    requires body.StudentSchedule?
  {
    if body.studentId == "" || !IsWeekday(body.weekday) then Fail
    else if !Live(rows, Students, body.studentId) then Refuse(ForeignKeyMissing, counter)
    else if StudentWeekdayTaken(rows, body.studentId, body.weekday, id) then Refuse(DuplicateValue, counter)
    else Accept(body, counter)
  }

  /** The reopen rule: a stored completed session becomes draft only on its own UTC date. */
  predicate ReopensLate(env: Env, operation: Operation, status: string, now: Time, existing: Option<Row>) {
    && !operation.Delete? && status == "draft"
    && existing.Some? && existing.value.body.Session?
    && existing.value.body.status == "completed"
    && env.formatDate(existing.value.body.sessionDate) != env.formatDate(DateOf(now))
  }

  function VetSession(env: Env, rows: Rows, counter: nat, operation: Operation, body: Fields, now: Time,
                      existing: Option<Row>): Verdict
    requires body.Session?
  {
    if body.clubId == "" || body.sessionDate == "" || (body.status != "draft" && body.status != "completed") then Fail
    else if ReopensLate(env, operation, body.status, now, existing) then Refuse(BusinessRule, counter)
    else if !Live(rows, Clubs, body.clubId) then Refuse(ForeignKeyMissing, counter)
    else Accept(body, counter)
  }

  function VetAttendance(rows: Rows, counter: nat, operation: Operation, id: string, body: Fields): Verdict
    requires body.Attendance?
  {
    if body.sessionId == "" || body.studentId == "" || !IsAttendanceStatus(body.attendanceStatus) then Fail
    else if operation.Delete? then Accept(body, counter)
    else if !Live(rows, AttendanceSessions, body.sessionId) then Refuse(ForeignKeyMissing, counter)
    else if !Live(rows, Students, body.studentId) then Refuse(ForeignKeyMissing, counter)
    else if AttendanceTaken(rows, body.sessionId, body.studentId, id) then Refuse(DuplicateValue, counter)
    else Accept(body, counter)
  }

  function Vet(env: Env, rows: Rows, counter: nat, operation: Operation, id: string, body: Fields, now: Time,
               existing: Option<Row>): Verdict {
    match body
    case Club(_, _, _, _, _, _, _) => VetClub(body, counter)
    case ClubGroup(_, _, _, _) => VetClubGroup(env, rows, counter, id, body)
    case ClubSchedule(_, _, _) => VetClubSchedule(rows, counter, id, body)
    case BeltRank(_, _, _, _) => VetBeltRank(rows, counter, id, body)
    case Student(_, _, _, _, _, _, _, _, _, _, _, _, _) => VetStudent(rows, counter, id, body)
    case Message(_, _, _, _, _, _, _, _, _, _) => VetMessage(rows, counter, operation, body)
    case Profile(_, _) => VetProfile(rows, counter, body)
    case StudentSchedule(_, _, _) => VetStudentSchedule(rows, counter, id, body)
    case Session(_, _, _, _) => VetSession(env, rows, counter, operation, body, now, existing)
    case Attendance(_, _, _, _, _) => VetAttendance(rows, counter, operation, id, body)
  }

  /** The common fields of the stored record: the server's times, the client's created_at if it sent one,
      and the client's own deletedAt unless the mutation is a delete. */
  function Stamp(env: Env, operation: Operation, id: string, rec: Record, fields: Fields, now: Time): Record {
    var nowText := env.formatTime(now);
    Record(id,
           if rec.createdAt == "" then nowText else rec.createdAt,
           nowText, nowText, "synced",
           if operation.Delete? then Some(nowText) else rec.deletedAt,
           fields)
  }

  datatype Canonicalized =
    | Canonical(record: Record, newCounter: nat)
    | Rejected(reason: Reason, newCounter: nat)
    | Broken

  function Canonicalize(env: Env, rows: Rows, counter: nat, entity: EntityName, operation: Operation,
                        id: string, raw: Raw, now: Time, existing: Option<Row>): Canonicalized
  {
    match DecodeAs(entity, raw)
    case None => Broken
    case Some(rec) =>
      match Vet(env, rows, counter, operation, id, rec.body, now, existing)
      case Fail => Broken
      case Refuse(reason, counter') => Rejected(reason, counter')
      case Accept(fields, counter') => Canonical(Stamp(env, operation, id, rec, fields, now), counter')
  }
}

/** What canonicalization guarantees about the write that follows it. */
module CanonicalProofs {
  import opened Text
  import opened Records
  import opened Tables
  import opened Lookups
  import opened History
  import opened Authorization
  import opened Canonical

  /** Accepted fields are the client's, except for a generated student code and trimmed message text. */
  lemma AcceptKeepsFields(env: Env, rows: Rows, counter: nat, operation: Operation, id: string, body: Fields, now: Time,
                          existing: Option<Row>)
    requires Vet(env, rows, counter, operation, id, body, now, existing).Accept?
    ensures var v := Vet(env, rows, counter, operation, id, body, now, existing);
      && EntityOf(v.fields) == EntityOf(body)
      && (if body.Student? && Blank(body.studentCode)
          then v.fields == body.(studentCode := Some(StudentCode(counter + 1))) && v.counter == counter + 1
          else v.counter == counter && if body.Message? then v.fields == body.(content := TrimSpace(body.content))
            else v.fields == body)
  {
  }

  // ----- acceptance, stated by what must hold ---------------------------------------

  /** The fields by themselves: nothing required is missing and closed vocabularies are respected. */
  ghost predicate FieldsValid(operation: Operation, body: Fields) {
    match body
    case Club(_, name, _, _, _, _, _) => name != ""
    case ClubGroup(clubId, name, _, _) => clubId != "" && name != ""
    case ClubSchedule(clubId, weekday, _) => clubId != "" && IsWeekday(weekday)
    case BeltRank(name, order, _, _) => name != "" && order >= 1
    case Student(code, fullName, _, _, _, _, _, clubId, _, beltRankId, _, _, _) =>
      fullName != "" && clubId != "" && beltRankId != "" && (Blank(code) || MatchesStudentCode(code.value))
    case Message(studentId, clubId, kind, content, authorUserId, authorName, _, _, _, _) =>
      studentId != "" && clubId != ""
      && (if operation.Delete? then kind == "manual" || kind == "attendance_note"
          else kind == "manual" && TrimSpace(authorName) != "" && !Blank(authorUserId) && TrimSpace(content) != "")
    case Profile(studentId, mode) => studentId != "" && (mode == "inherit" || mode == "custom")
    case StudentSchedule(studentId, weekday, _) => studentId != "" && IsWeekday(weekday)
    case Session(clubId, sessionDate, status, _) =>
      clubId != "" && sessionDate != "" && (status == "draft" || status == "completed")
    case Attendance(sessionId, studentId, status, _, _) =>
      sessionId != "" && studentId != "" && IsAttendanceStatus(status)
  }

  /** Every row the record refers to is live; an attendance record may be deleted without that. */
  ghost predicate ReferencesLive(rows: Rows, operation: Operation, body: Fields) {
    match body
    case Club(_, _, _, _, _, _, _) => true
    case BeltRank(_, _, _, _) => true
    case ClubGroup(clubId, _, _, _) => Live(rows, Clubs, clubId)
    case ClubSchedule(clubId, _, _) => Live(rows, Clubs, clubId)
    case Session(clubId, _, _, _) => Live(rows, Clubs, clubId)
    case Student(_, _, _, _, _, _, _, clubId, groupId, beltRankId, _, _, _) =>
      Live(rows, Clubs, clubId) && (Blank(groupId) || Live(rows, ClubGroups, groupId.value))
        && Live(rows, BeltRanks, beltRankId)
    case Message(studentId, clubId, _, _, _, _, _, _, _, _) => Live(rows, Students, studentId)
      && Live(rows, Clubs, clubId)
    case Profile(studentId, _) => Live(rows, Students, studentId)
    case StudentSchedule(studentId, _, _) => Live(rows, Students, studentId)
    case Attendance(sessionId, studentId, _, _, _) =>
      operation.Delete? || (Live(rows, AttendanceSessions, sessionId) && Live(rows, Students, studentId))
  }

  /** No other live row holds the value that has to be unique. */
  ghost predicate ValueFree(env: Env, rows: Rows, counter: nat, operation: Operation, id: string, body: Fields) {
    match body
    case ClubGroup(clubId, name, _, _) => !GroupNameTaken(env, rows, clubId, name, id)
    case ClubSchedule(clubId, weekday, _) => !ClubWeekdayTaken(rows, clubId, weekday, id)
    case BeltRank(_, order, _, _) => !BeltOrderTaken(rows, order, id)
    case Student(code, _, _, _, _, _, _, _, _, _, _, _, _) =>
      !StudentCodeTaken(rows, if Blank(code) then StudentCode(counter + 1) else code.value, id)
    case StudentSchedule(studentId, weekday, _) => !StudentWeekdayTaken(rows, studentId, weekday, id)
    case Attendance(sessionId, studentId, _, _, _) => operation.Delete?
      || !AttendanceTaken(rows, sessionId, studentId, id)
    case _ => true
  }

  /** A mutation is accepted exactly if its fields are valid, what it refers to is live, its unique value is free, and
      it does not reopen a session late. A refusal names the first of these that fails. */
  lemma AcceptedExactly(env: Env, rows: Rows, counter: nat, operation: Operation, id: string, body: Fields, now: Time,
                        existing: Option<Row>)
    ensures var v := Vet(env, rows, counter, operation, id, body, now, existing);
      && (v.Accept? <==>
            && FieldsValid(operation, body) && ReferencesLive(rows, operation, body)
            && ValueFree(env, rows, counter, operation, id, body)
            && !(body.Session? && ReopensLate(env, operation, body.status, now, existing)))
      && (v.Refuse? ==>
            match v.reason
            case ForeignKeyMissing => !ReferencesLive(rows, operation, body)
            case DuplicateValue => ReferencesLive(rows, operation, body)
              && !ValueFree(env, rows, counter, operation, id, body)
            case BusinessRule => body.Session? && ReopensLate(env, operation, body.status, now, existing)
            case ValidationFailed => !FieldsValid(operation, body)
            case _ => false)
  {
    hide GroupNameTaken, ClubWeekdayTaken, BeltOrderTaken, StudentCodeTaken, StudentWeekdayTaken, AttendanceTaken,
      StudentCode, MatchesStudentCode, TrimSpace, IsWeekday, IsAttendanceStatus, Live;
  }

  /** Canonicalization draws at most one student code. */
  lemma CounterMovesByOne(env: Env, rows: Rows, counter: nat, m: Mutation, now: Time, existing: Option<Row>)
    requires !Canonicalize(env, rows, counter, m.entity, m.operation, m.recordId, m.record, now, existing).Broken?
    ensures var c := Canonicalize(env, rows, counter, m.entity, m.operation, m.recordId, m.record, now, existing);
      c.newCounter == counter || (c.newCounter == counter + 1 && m.entity == Students)
  {
  }

  /** A delete that names a completed session a draft is the one way around the reopen rule. */
  predicate DeletesAsDraft(operation: Operation, raw: Raw) {
    operation.Delete? && raw.Decoded? && raw.rec.body.Session? && raw.rec.body.status == "draft"
  }

  /** What canonicalization lets through is vetted in the sense of the run invariant, and orderly unless it deletes as
      draft. */
  lemma CanonicalIsVetted(env: Env, rows: Rows, counter: nat, entity: EntityName, operation: Operation, id: string,
                          raw: Raw, now: Time, existing: Option<Row>)
    requires Canonicalize(env, rows, counter, entity, operation, id, raw, now, existing).Canonical?
    requires id != "" || entity == AttendanceRecords
    requires entity == AttendanceSessions ==> existing == Lookup(rows, entity, id)
    ensures var rec := Canonicalize(env, rows, counter, entity, operation, id, raw, now, existing).record;
      && KeyOf(rec) == Key(entity, id)
      && Vetted(env, rows, rec, now, !DeletesAsDraft(operation, raw))
  {
    AcceptKeepsFields(env, rows, counter, operation, id, raw.rec.body, now, existing);
  }

  /** The entities whose uniqueness is checked before the write. Profiles and messages are not;
      student codes are compared with live students only, though the column is unique among all. */
  predicate UniquenessChecked(entity: EntityName) {
    entity in {ClubGroups, ClubSchedules, BeltRanks, StudentSchedules, AttendanceRecords}
  }

  /** A canonical record of such an entity never trips a unique index: the check before the write is enough. */
  lemma CanonicalFitsIndexes(env: Env, rows: Rows, counter: nat, entity: EntityName, operation: Operation, id: string,
                             raw: Raw, now: Time, existing: Option<Row>)
    requires Tagged(rows) && UniquenessChecked(entity)
    requires Canonicalize(env, rows, counter, entity, operation, id, raw, now, existing).Canonical?
    ensures var rec := Canonicalize(env, rows, counter, entity, operation, id, raw, now, existing).record;
      ToRow(env, rec).Some? ==> FitsIndexes(rows, KeyOf(rec), ToRow(env, rec).value)
  {
    AcceptKeepsFields(env, rows, counter, operation, id, raw.rec.body, now, existing);
    var rec := Canonicalize(env, rows, counter, entity, operation, id, raw, now, existing).record;
    if ToRow(env, rec).Some? {
      var row := ToRow(env, rec).value;
      forall k | k in rows && k != KeyOf(rec) && k.entity == entity
        ensures !Collides(row, rows[k])
      {
        assert EntityOf(rows[k].body) == entity && k.id != id;
        hide ToRow, Canonicalize;
      }
    }
  }

  /** A generated code has the shape clients must use exactly while it fits six digits. */
  lemma GeneratedCodeShape(value: nat)
    ensures MatchesStudentCode(StudentCode(value)) <==> value < 1_000_000
  {
    assert Power10(6) == 1_000_000;
    if value < 1_000_000 {
      PaddedRoundTrip(value, 6);
      assert StudentCode(value)[4..] == Padded(value, 6);
    } else {
      DecimalRoundTrip(value);
      var s := Decimal(value);
      assert StudentCode(value)[4..] == s;
      if |s| == 6 {
        ValueBound(s);
        assert false;
      }
    }
  }

  /** No two counter values give the same code. */
  lemma GeneratedCodesDiffer(a: nat, b: nat)
    requires a != b
    ensures StudentCode(a) != StudentCode(b)
  {
    assert Power10(6) == 1_000_000;
    if a < 1_000_000 {
      PaddedRoundTrip(a, 6);
    } else {
      DecimalRoundTrip(a);
    }
    if b < 1_000_000 {
      PaddedRoundTrip(b, 6);
    } else {
      DecimalRoundTrip(b);
    }
    assert StudentCode(a)[4..] == if a < 1_000_000 then Padded(a, 6) else Decimal(a);
    assert StudentCode(b)[4..] == if b < 1_000_000 then Padded(b, 6) else Decimal(b);
  }

  /** `after` is `rows` except perhaps under `key`. */
  ghost predicate SameElsewhere(rows: Rows, after: Rows, key: Key) {
    forall k | k != key :: (k in rows <==> k in after) && (k in rows ==> rows[k] == after[k])
  }

  /** Checks do not look at the record's own row, except for the reopen rule. */
  lemma VetIgnoresOwnRow(env: Env, rows: Rows, after: Rows, counter: nat, id: string, body: Fields, now: Time,
                         existing: Option<Row>, later: Time, existing': Option<Row>)
    requires SameElsewhere(rows, after, Key(EntityOf(body), id))
    requires Vet(env, rows, counter, Upsert, id, body, now, existing).Accept?
    requires body.Session? ==> !ReopensLate(env, Upsert, body.status, later, existing')
    ensures Vet(env, after, counter, Upsert, id, body, later, existing')
      == Vet(env, rows, counter, Upsert, id, body, now, existing)
  {
    hide Vet, FieldsValid, ReferencesLive, ValueFree, ReopensLate, SameElsewhere;
    AcceptedExactly(env, rows, counter, Upsert, id, body, now, existing);
    AcceptedExactly(env, after, counter, Upsert, id, body, later, existing');
    ReferencesIgnoreOwnRow(rows, after, id, body);
    ValueIgnoresOwnRow(env, rows, after, counter, id, body);
    AcceptKeepsFields(env, rows, counter, Upsert, id, body, now, existing);
    AcceptKeepsFields(env, after, counter, Upsert, id, body, later, existing');
  }

  lemma ReferencesIgnoreOwnRow(rows: Rows, after: Rows, id: string, body: Fields)
    requires SameElsewhere(rows, after, Key(EntityOf(body), id))
    ensures ReferencesLive(after, Upsert, body) <==> ReferencesLive(rows, Upsert, body)
  {
  }

  lemma ValueIgnoresOwnRow(env: Env, rows: Rows, after: Rows, counter: nat, id: string, body: Fields)
    requires SameElsewhere(rows, after, Key(EntityOf(body), id))
    ensures ValueFree(env, after, counter, Upsert, id, body) <==> ValueFree(env, rows, counter, Upsert, id, body)
  {
    hide StudentCode;
  }

  /** Accepted fields are accepted unchanged, unless their generated code is too long. */
  lemma VetAcceptsResult(env: Env, rows: Rows, counter: nat, id: string, body: Fields, now: Time, existing: Option<Row>)
    requires Vet(env, rows, counter, Upsert, id, body, now, existing).Accept?
    ensures var v := Vet(env, rows, counter, Upsert, id, body, now, existing);
      Vet(env, rows, v.counter, Upsert, id, v.fields, now, existing) ==
        if body.Student? && Blank(body.studentCode) && counter + 1 >= 1_000_000
        then Refuse(ValidationFailed, v.counter) else Accept(v.fields, v.counter)
  {
    match body
    case Student(_, _, _, _, _, _, _, _, _, _, _, _, _) =>
      GeneratedCodeShape(counter + 1);
      assert StudentCode(counter + 1)[0] == 'P';
      hide StudentCode, MatchesStudentCode;
    case Message(_, _, _, content, _, _, _, _, _, _) =>
      TrimSpaceResult(content);
    case _ =>
  }

  /** Sending an accepted record back, as it was answered, is accepted again and changes nothing but the two
      modification times, unless the server itself gave out a student code longer than its own pattern. */
  lemma AcceptedAgain(env: Env, rows: Rows, counter: nat, entity: EntityName, id: string, raw: Raw, now: Time,
                      existing: Option<Row>, later: Time)
    requires ValidEnv(env)
    requires Canonicalize(env, rows, counter, entity, Upsert, id, raw, now, existing).Canonical?
    requires ToRow(env, Canonicalize(env, rows, counter, entity, Upsert, id, raw, now, existing).record).Some?
    ensures var first := Canonicalize(env, rows, counter, entity, Upsert, id, raw, now, existing);
      var key := Key(entity, id);
      var after := Put(rows, key, ToRow(env, first.record).value);
      var again :=
        Canonicalize(env, after, first.newCounter, entity, Upsert, id, Decoded(first.record), later, Some(after[key]));
      if raw.rec.body.Student? && Blank(raw.rec.body.studentCode) && counter + 1 >= 1_000_000
      then again == Rejected(ValidationFailed, first.newCounter)
      else
        var renewed := first.record.(updatedAt := env.formatTime(later), lastModifiedAt := env.formatTime(later));
        again == Canonical(renewed, first.newCounter)
  {
    hide Vet, ToRow, ReopensLate, StudentCode;
    var first := Canonicalize(env, rows, counter, entity, Upsert, id, raw, now, existing);
    var key := Key(entity, id);
    var body := raw.rec.body;
    var row := ToRow(env, first.record).value;
    var after := Put(rows, key, row);
    FormattedNotEmpty(env, now, 0);
    AcceptKeepsFields(env, rows, counter, Upsert, id, body, now, existing);
    StoredSession(env, first.record);
    OwnStatusReopensNothing(env, if body.Session? then body.status else "", later, after[key]);
    assert SameElsewhere(rows, after, key);
    hide Put, EntityOf, SameElsewhere;
    VetIgnoresOwnRow(env, rows, after, counter, id, body, now, existing, later, Some(after[key]));
    VetAcceptsResult(env, after, counter, id, body, later, Some(after[key]));
  }

  lemma StoredSession(env: Env, rec: Record)
    requires ToRow(env, rec).Some?
    ensures ToRow(env, rec).value.body.Session? ==>
      rec.body.Session? && ToRow(env, rec).value.body.status == rec.body.status
  {
  }

  /** Writing a session with the status it is stored under reopens nothing. */
  lemma OwnStatusReopensNothing(env: Env, status: string, later: Time, row: Row)
    requires row.body.Session? ==> row.body.status == status
    ensures !ReopensLate(env, Upsert, status, later, Some(row))
  {
  }
}
