/** Which club a mutation or a log row belongs to, and which permission it needs. */
module Authorization {
  import opened Records
  import opened Tables
  import opened Lookups

  datatype Operation = Upsert | Delete | OtherOperation(text: string)

  /** The raw JSON of a mutation: absent, undecodable as its entity, or decoded. */
  datatype Raw = NoRecord | BadRecord | Decoded(rec: Record)

  datatype Mutation = Mutation(
    mutationId: string, entity: EntityName, operation: Operation,
    recordId: string, record: Raw, clientModifiedAt: string)

  datatype Permission =
    | ClubRead | ClubManage | StudentsRead | StudentsWrite | StudentsDelete
    | AttendanceRead | AttendanceWrite | BeltRanksRead | BeltRanksWrite
    | ClubGroupsRead | ClubGroupsWrite | ImportsManage

  /** The authenticated caller, with the answers GetClubPermissions gives about each club; None is an error. */
  datatype Caller = Caller(userId: string, sysAdmin: bool, permissions: string -> Option<set<Permission>>)

  /** Cached permissions are the authorizer's answers. */
  ghost predicate Truthful(caller: Caller, cache: map<string, set<Permission>>) {
    forall club | club in cache :: caller.permissions(club) == Some(cache[club])
  }

  datatype Decision = Granted | Denied | AuthorizerError

  function Decide(granted: Option<set<Permission>>, permission: Permission): Decision {
    if granted.None? then AuthorizerError else if permission in granted.value then Granted else Denied
  }

  datatype Scope = GlobalScope | ClubScope(clubId: string)

  /** json.Unmarshal into the entity the mutation names. */
  function DecodeAs(entity: EntityName, raw: Raw): Option<Record> {
    if raw.Decoded? && EntityOf(raw.rec.body) == entity then Some(raw.rec) else None
  }

  /** The club an entity's own fields lead to; "" where they lead nowhere. */
  function ClubOf<D, T>(rows: Rows, body: Body<D, T>): string {
    match body
    case Club(_, _, _, _, _, _, _) => ""
    case BeltRank(_, _, _, _) => ""
    case ClubGroup(clubId, _, _, _) => clubId
    case ClubSchedule(clubId, _, _) => clubId
    case Student(_, _, _, _, _, _, _, clubId, _, _, _, _, _) => clubId
    case Session(clubId, _, _, _) => clubId
    case Message(studentId, _, _, _, _, _, _, _, _, _) => StudentLink(rows, studentId)
    case Profile(studentId, _) => StudentLink(rows, studentId)
    case StudentSchedule(studentId, _, _) => StudentLink(rows, studentId)
    case Attendance(sessionId, studentId, _, _, _) =>
      if sessionId != "" && SessionClub(rows, sessionId) != "" then SessionClub(rows, sessionId)
      else StudentLink(rows, studentId)
  }

  function StudentLink(rows: Rows, studentId: string): string {
    if studentId == "" then "" else StudentClub(rows, studentId)
  }

  function NonEmptyClub(clubId: string): Option<Scope> {
    if clubId == "" then None else Some(ClubScope(clubId))
  }

  /** ResolveMutationScope: without a record in the mutation the stored row is used. */
  function MutationScope(rows: Rows, m: Mutation, existing: Option<Row>): Option<Scope> {
    match m.entity
    case BeltRanks => Some(GlobalScope)
    case Clubs => Some(ClubScope(m.recordId))
    case OtherEntity(_) => None
    case _ =>
      if m.record.NoRecord? then
        var row :- existing;
        NonEmptyClub(ClubOf(rows, row.body))
      else
        var rec :- DecodeAs(m.entity, m.record);
        NonEmptyClub(ClubOf(rows, rec.body))
  }

  /** ResolveStoredRecordScope, for a row of the change log; None is an error. */
  function StoredScope(rows: Rows, rec: Record): Option<Scope> {
    match rec.body
    case BeltRank(_, _, _, _) => Some(GlobalScope)
    case Club(_, _, _, _, _, _, _) => Some(ClubScope(rec.id))
    case _ => NonEmptyClub(ClubOf(rows, rec.body))
  }

  function WritePermission(entity: EntityName, operation: Operation): Option<Permission> {
    match entity
    case Clubs => Some(ClubManage)
    case ClubGroups => Some(ClubGroupsWrite)
    case ClubSchedules => Some(ClubManage)
    case BeltRanks => Some(BeltRanksWrite)
    case Students => Some(if operation.Delete? then StudentsDelete else StudentsWrite)
    case StudentMessages => Some(StudentsWrite)
    case StudentScheduleProfiles => Some(StudentsWrite)
    case StudentSchedules => Some(StudentsWrite)
    case AttendanceSessions => Some(AttendanceWrite)
    case AttendanceRecords => Some(AttendanceWrite)
    case OtherEntity(_) => None
  }

  function ReadPermission(entity: EntityName): Option<Permission> {
    match entity
    case Clubs => Some(ClubRead)
    case ClubGroups => Some(ClubGroupsRead)
    case ClubSchedules => Some(ClubRead)
    case BeltRanks => Some(BeltRanksRead)
    case Students => Some(StudentsRead)
    case StudentMessages => Some(StudentsRead)
    case StudentScheduleProfiles => Some(StudentsRead)
    case StudentSchedules => Some(StudentsRead)
    case AttendanceSessions => Some(AttendanceRead)
    case AttendanceRecords => Some(AttendanceRead)
    case OtherEntity(_) => None
  }

  datatype Authorized = Allowed(scope: Scope) | Forbidden | Unresolved

  /** authorizeMutation. A global scope asks the authorizer about the club "". */
  function Authorize(caller: Caller, rows: Rows, m: Mutation, existing: Option<Row>): Authorized {
    match MutationScope(rows, m, existing)
    case None => Unresolved
    case Some(scope) =>
      match WritePermission(m.entity, m.operation)
      case None => Allowed(scope)
      case Some(permission) =>
        match Decide(caller.permissions(if scope.ClubScope? then scope.clubId else ""), permission)
        case AuthorizerError => Unresolved
        case Granted => Allowed(scope)
        case Denied => Forbidden
  }

  datatype Readable = CanRead | Hidden | ReadError

  /** canReadStoredRecord */
  function ReadDecision(caller: Caller, rows: Rows, rec: Record): Readable {
    match StoredScope(rows, rec)
    case None => ReadError
    case Some(scope) =>
      if scope.GlobalScope? || caller.sysAdmin then CanRead
      else
        match ReadPermission(EntityOf(rec.body))
        case None => CanRead
        case Some(permission) =>
          match Decide(caller.permissions(scope.clubId), permission)
          case AuthorizerError => ReadError
          case Granted => CanRead
          case Denied => Hidden
  }
}

/** Every change-log row of a reachable state, however old, belongs to a club or to everyone. */
module ScopeTotality {
  import opened Records
  import opened Tables
  import opened Lookups
  import opened History
  import opened Authorization

  /** A payload whose references hold resolves, and to a club that exists. */
  lemma ReferencedScopeResolves(env: Env, core: Core, body: Fields)
    requires Tagged(core.rows) && Named(core.rows) && Referenced(env, core)
    requires ForeignKeysHold(env.users, core.rows, body)
    requires !body.Club? && !body.BeltRank?
    ensures ClubOf(core.rows, body) != "" && Stored(core.rows, Clubs, ClubOf(core.rows, body))
  {
    match body
    case Message(studentId, _, _, _, _, _, _, _, _, _) => StudentClubExists(env, core, studentId);
    case Profile(studentId, _) => StudentClubExists(env, core, studentId);
    case StudentSchedule(studentId, _, _) => StudentClubExists(env, core, studentId);
    case Attendance(sessionId, studentId, _, _, _) =>
      var k := Key(AttendanceSessions, sessionId);
      assert EntityOf(core.rows[k].body) == AttendanceSessions;
      assert ForeignKeysHold(env.users, core.rows, core.rows[k].body);
    case _ =>
  }

  lemma StudentClubExists(env: Env, core: Core, studentId: string)
    requires Tagged(core.rows) && Named(core.rows) && Referenced(env, core)
    requires Stored(core.rows, Students, studentId)
    ensures StudentLink(core.rows, studentId) != "" && Stored(core.rows, Clubs, StudentLink(core.rows, studentId))
  {
    var k := Key(Students, studentId);
    assert EntityOf(core.rows[k].body) == Students;
    assert ForeignKeysHold(env.users, core.rows, core.rows[k].body);
  }

  /** Scope totality: Pull never meets a row whose scope cannot be resolved, and the club it resolves to exists. */
  lemma LogScopesResolve(env: Env, core: Core, i: nat)
    requires Reachable(env, core) && i < |core.log|
    ensures var scope := StoredScope(core.rows, core.log[i].record);
      scope.Some? && (scope.value.ClubScope? ==> Stored(core.rows, Clubs, scope.value.clubId))
  {
    ReachableInvariant(env, core);
    hide Reachable, Indexed, GroupsDistinct, LogOrdered;
    var rec := core.log[i].record;
    if rec.body.Club? {
      LoggedIdsAreStored(env, core.log, i);
    } else if !rec.body.BeltRank? {
      ReferencedScopeResolves(env, core, rec.body);
    }
  }

  /** Whatever was logged is still in its table. */
  lemma {:induction false} LoggedIdsAreStored(env: Env, log: seq<LogRow>, i: nat)
    requires AllStored(env, log) && i < |log|
    ensures KeyOf(log[i].record) in Replay(env, log)
  {
    hide ToRow, EntityOf;
    var n := |log| - 1;
    if i < n {
      LoggedIdsAreStored(env, log[..n], i);
    }
  }
}
