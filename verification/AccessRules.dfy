/** Which club a record belongs to and which permission it needs, said as relations, and who may read it. */
module AccessRules {
  import opened Records
  import opened Tables
  import opened Lookups
  import opened Authorization

  // ----- belonging --------------------------------------------------------------------

  /** The stored student, deleted or not, is in the club. */
  ghost predicate StudentIn(rows: Rows, studentId: string, clubId: string) {
    && studentId != "" && Stored(rows, Students, studentId)
    && rows[Key(Students, studentId)].body.Student? && rows[Key(Students, studentId)].body.clubId == clubId
  }

  ghost predicate SessionIn(rows: Rows, sessionId: string, clubId: string) {
    && sessionId != "" && Stored(rows, AttendanceSessions, sessionId)
    && rows[Key(AttendanceSessions, sessionId)].body.Session?
    && rows[Key(AttendanceSessions, sessionId)].body.clubId == clubId
  }

  /** The fields lead to the club: by themselves, through their student, or, for an attendance record, through its
      session or else its student. */
  ghost predicate InClub<D, T>(rows: Rows, body: Body<D, T>, clubId: string) {
    clubId != "" &&
    match body
    case Club(_, _, _, _, _, _, _) => false
    case BeltRank(_, _, _, _) => false
    case ClubGroup(own, _, _, _) => own == clubId
    case ClubSchedule(own, _, _) => own == clubId
    case Student(_, _, _, _, _, _, _, own, _, _, _, _, _) => own == clubId
    case Session(own, _, _, _) => own == clubId
    case Message(studentId, _, _, _, _, _, _, _, _, _) => StudentIn(rows, studentId, clubId)
    case Profile(studentId, _) => StudentIn(rows, studentId, clubId)
    case StudentSchedule(studentId, _, _) => StudentIn(rows, studentId, clubId)
    case Attendance(sessionId, studentId, _, _, _) =>
      || SessionIn(rows, sessionId, clubId)
      || ((forall other | other != "" :: !SessionIn(rows, sessionId, other)) && StudentIn(rows, studentId, clubId))
  }

  /** Whom a mutation speaks for: everyone for a belt rank, the club itself for a club, and otherwise the club its
      payload leads to, or the stored row's if it carries no payload. */
  ghost predicate SpeaksFor(rows: Rows, m: Mutation, scope: Scope) {
    match m.entity
    case BeltRanks => scope == GlobalScope
    case Clubs => scope == ClubScope(m.recordId)
    case OtherEntity(_) => false
    case _ =>
      && scope.ClubScope?
      && match m.record
         case NoRecord =>
           Stored(rows, m.entity, m.recordId) && InClub(rows, rows[Key(m.entity, m.recordId)].body, scope.clubId)
         case BadRecord => false
         case Decoded(rec) => EntityOf(rec.body) == m.entity && InClub(rows, rec.body, scope.clubId)
  }

  /** The club a stored or logged record belongs to. */
  ghost predicate BelongsTo(rows: Rows, rec: Record, clubId: string) {
    if rec.body.Club? then clubId == rec.id else InClub(rows, rec.body, clubId)
  }

  lemma ClubOfExactly<D, T>(rows: Rows, body: Body<D, T>, clubId: string)
    ensures InClub(rows, body, clubId) <==> clubId != "" && ClubOf(rows, body) == clubId
  {
    match body
    case Attendance(sessionId, _, _, _, _) =>
      if SessionClub(rows, sessionId) != "" && sessionId != "" {
        assert SessionIn(rows, sessionId, SessionClub(rows, sessionId));
      }
    case _ =>
  }

  /** The scope a mutation is checked against is the one it speaks for. */
  lemma ScopeExactly(rows: Rows, m: Mutation, scope: Scope)
    ensures MutationScope(rows, m, Lookup(rows, m.entity, m.recordId)) == Some(scope) <==> SpeaksFor(rows, m, scope)
  {
    hide ClubOf, InClub;
    if scope.ClubScope? {
      if m.record.Decoded? {
        ClubOfExactly(rows, m.record.rec.body, scope.clubId);
      }
      if Stored(rows, m.entity, m.recordId) {
        ClubOfExactly(rows, rows[Key(m.entity, m.recordId)].body, scope.clubId);
      }
    }
  }

  /** The scope of a log row: everyone for a belt rank, otherwise the club it belongs to. */
  lemma StoredScopeExactly(rows: Rows, rec: Record, scope: Scope)
    ensures StoredScope(rows, rec) == Some(scope) <==>
      if rec.body.BeltRank? then scope == GlobalScope
      else scope.ClubScope? && BelongsTo(rows, rec, scope.clubId)
  {
    hide ClubOf, InClub;
    if scope.ClubScope? {
      ClubOfExactly(rows, rec.body, scope.clubId);
    }
  }

  // ----- permissions ------------------------------------------------------------------

  /** The permission a write of a known entity needs. */
  function NeededToWrite(entity: EntityName, operation: Operation): Permission
    requires !entity.OtherEntity?
  {
    WritePermission(entity, operation).value
  }

  /** What each permission is good for. */
  lemma PermissionsExactly(entity: EntityName, operation: Operation)
    requires !entity.OtherEntity?
    ensures var write := NeededToWrite(entity, operation);
      && (write == ClubManage <==> entity in {Clubs, ClubSchedules})
      && (write == ClubGroupsWrite <==> entity == ClubGroups)
      && (write == BeltRanksWrite <==> entity == BeltRanks)
      && (write == StudentsDelete <==> entity == Students && operation.Delete?)
      && (write == StudentsWrite <==>
            || entity in {StudentMessages, StudentScheduleProfiles, StudentSchedules}
            || (entity == Students && !operation.Delete?))
      && (write == AttendanceWrite <==> entity in {AttendanceSessions, AttendanceRecords})
    ensures var read := ReadPermission(entity);
      && (read == Some(ClubRead) <==> entity in {Clubs, ClubSchedules})
      && (read == Some(ClubGroupsRead) <==> entity == ClubGroups)
      && (read == Some(BeltRanksRead) <==> entity == BeltRanks)
      && (read == Some(StudentsRead) <==>
            entity in {Students, StudentMessages, StudentScheduleProfiles, StudentSchedules})
      && (read == Some(AttendanceRead) <==> entity in {AttendanceSessions, AttendanceRecords})
  {
  }

  // ----- reading ----------------------------------------------------------------------

  /** The caller holds the read permission of the record's entity in the club. */
  ghost predicate HoldsRead(caller: Caller, rec: Record, clubId: string) {
    && caller.permissions(clubId).Some? && ReadPermission(EntityOf(rec.body)).Some?
    && ReadPermission(EntityOf(rec.body)).value in caller.permissions(clubId).value
  }

  /** Belt ranks are for everyone, system administrators read whatever belongs somewhere, and anyone else needs the read
      permission of the record's club. */
  ghost predicate MayRead(caller: Caller, rows: Rows, rec: Record) {
    || rec.body.BeltRank?
    || exists clubId :: BelongsTo(rows, rec, clubId) && (caller.sysAdmin || HoldsRead(caller, rec, clubId))
  }

  /** Who reads what, exactly: a row is readable if the caller may read it, an error if it belongs nowhere or the
      permission service does not answer about its club, and hidden otherwise. */
  lemma ReadableExactly(caller: Caller, rows: Rows, rec: Record)
    ensures ReadDecision(caller, rows, rec) == CanRead <==> MayRead(caller, rows, rec)
    ensures ReadDecision(caller, rows, rec) == ReadError <==>
      && !rec.body.BeltRank?
      && forall clubId | BelongsTo(rows, rec, clubId) :: !caller.sysAdmin && caller.permissions(clubId).None?
  {
    hide StoredScope, BelongsTo;
    var scope := StoredScope(rows, rec);
    StoredScopeExactly(rows, rec, GlobalScope);
    if scope.Some? {
      StoredScopeExactly(rows, rec, scope.value);
      forall clubId | BelongsTo(rows, rec, clubId) && !rec.body.BeltRank?
        ensures scope.value == ClubScope(clubId)
      {
        StoredScopeExactly(rows, rec, ClubScope(clubId));
      }
    } else {
      forall clubId
        ensures rec.body.BeltRank? || !BelongsTo(rows, rec, clubId)
      {
        StoredScopeExactly(rows, rec, ClubScope(clubId));
      }
    }
  }
}
