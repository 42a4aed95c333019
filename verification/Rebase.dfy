/** Rebase: all live rows, filtered by the clubs the caller is a member of. */
module RebaseModel {
  import opened Text
  import opened Records
  import opened Tables
  import opened History
  import opened Authorization
  import opened PushSpec
  import opened SyncStoreModel

  /** The ten lists of the answer. */
  datatype Answer = Answer(
    clubs: seq<Record>, clubGroups: seq<Record>, clubSchedules: seq<Record>, beltRanks: seq<Record>,
    students: seq<Record>, studentMessages: seq<Record>, studentScheduleProfiles: seq<Record>,
    studentSchedules: seq<Record>, attendanceSessions: seq<Record>, attendanceRecords: seq<Record>)

  const EMPTY_ANSWER := Answer([], [], [], [], [], [], [], [], [], [])

  function ListOf(answer: Answer, entity: EntityName): seq<Record> {
    match entity
    case Clubs => answer.clubs
    case ClubGroups => answer.clubGroups
    case ClubSchedules => answer.clubSchedules
    case BeltRanks => answer.beltRanks
    case Students => answer.students
    case StudentMessages => answer.studentMessages
    case StudentScheduleProfiles => answer.studentScheduleProfiles
    case StudentSchedules => answer.studentSchedules
    case AttendanceSessions => answer.attendanceSessions
    case AttendanceRecords => answer.attendanceRecords
    case OtherEntity(_) => []
  }

  // ----- what is shown ------------------------------------------------------------------

  /** A live student, or session, of one of the clubs. */
  ghost predicate StudentShown(rows: Rows, clubs: set<string>, id: string) {
    Live(rows, Students, id) && rows[Key(Students, id)].body.Student? && rows[Key(Students, id)].body.clubId in clubs
  }

  ghost predicate SessionShown(rows: Rows, clubs: set<string>, id: string) {
    Live(rows, AttendanceSessions, id) && rows[Key(AttendanceSessions, id)].body.Session?
      && rows[Key(AttendanceSessions, id)].body.clubId in clubs
  }

  /** What a member of the clubs is shown: the clubs and what names one of them, the schedules of shown students, the
      attendance of shown sessions or students, and all belt ranks. */
  ghost predicate ShownTo(rows: Rows, clubs: set<string>, k: Key)
    requires k in rows
  {
    match rows[k].body
    case Club(_, _, _, _, _, _, _) => k.id in clubs
    case BeltRank(_, _, _, _) => true
    case ClubGroup(clubId, _, _, _) => clubId in clubs
    case ClubSchedule(clubId, _, _) => clubId in clubs
    case Student(_, _, _, _, _, _, _, clubId, _, _, _, _, _) => clubId in clubs
    case Session(clubId, _, _, _) => clubId in clubs
    case Message(_, clubId, _, _, _, _, _, _, _, _) => clubId in clubs
    case Profile(studentId, _) => StudentShown(rows, clubs, studentId)
    case StudentSchedule(studentId, _, _) => StudentShown(rows, clubs, studentId)
    case Attendance(sessionId, studentId, _, _, _) =>
      SessionShown(rows, clubs, sessionId) || StudentShown(rows, clubs, studentId)
  }

  /** The live rows of a table that the caller is shown; clubs is None for a system administrator. */
  ghost predicate Shown(rows: Rows, clubs: Option<set<string>>, k: Key) {
    k in rows && rows[k].deletedAt.None? && (clubs.None? || ShownTo(rows, clubs.value, k))
  }

  /** The list holds what is shown of its table, each row once and as it is stored. */
  ghost predicate ListsShown(env: Env, rows: Rows, clubs: Option<set<string>>, entity: EntityName,
                             records: seq<Record>) {
    && (forall i, j | 0 <= i < j < |records| :: records[i].id != records[j].id)
    && (forall rec | rec in records ::
          Shown(rows, clubs, Key(entity, rec.id)) && rec == FromRow(env, rec.id, rows[Key(entity, rec.id)]))
    && (forall id | Shown(rows, clubs, Key(entity, id)) :: exists rec | rec in records :: rec.id == id)
  }

  // ----- lists and filters ------------------------------------------------------------------

  function LiveIds(rows: Rows, entity: EntityName): set<string> {
    set k | k in rows && k.entity == entity && rows[k].deletedAt.None? :: k.id
  }

  /** filterRecords */
  function Filtered(items: seq<Record>, keep: Record -> bool): seq<Record> {
    if items == [] then []
    else
      var n := |items| - 1;
      Filtered(items[..n], keep) + if keep(items[n]) then [items[n]] else []
  }

  lemma {:induction false} FilteredMembers(items: seq<Record>, keep: Record -> bool)
    ensures forall rec :: rec in Filtered(items, keep) <==> rec in items && keep(rec)
  {
    if items != [] {
      var n := |items| - 1;
      FilteredMembers(items[..n], keep);
      assert items == items[..n] + [items[n]];
    }
  }

  lemma {:induction false} FilteredDistinct(items: seq<Record>, keep: Record -> bool)
    requires forall i, j | 0 <= i < j < |items| :: items[i].id != items[j].id
    ensures forall i, j | 0 <= i < j < |Filtered(items, keep)| ::
      Filtered(items, keep)[i].id != Filtered(items, keep)[j].id
  {
    if items != [] {
      var n := |items| - 1;
      FilteredDistinct(items[..n], keep);
      FilteredMembers(items[..n], keep);
      var front := Filtered(items[..n], keep);
      forall i | 0 <= i < |front|
        ensures front[i].id != items[n].id
      {
        assert front[i] in items[..n];
      }
    }
  }

  /** A filter that keeps what is shown turns the list of all live rows into the list of the shown ones. */
  lemma FilterShows(env: Env, rows: Rows, clubs: set<string>, entity: EntityName, items: seq<Record>,
                    keep: Record -> bool)
    requires ListsShown(env, rows, None, entity, items)
    requires forall rec | rec in items :: keep(rec) <==> ShownTo(rows, clubs, Key(entity, rec.id))
    ensures ListsShown(env, rows, Some(clubs), entity, Filtered(items, keep))
  {
    hide ShownTo, FromRow;
    FilteredMembers(items, keep);
    FilteredDistinct(items, keep);
    var kept := Filtered(items, keep);
    forall id | Shown(rows, Some(clubs), Key(entity, id))
      ensures exists rec | rec in kept :: rec.id == id
    {
      assert Shown(rows, None, Key(entity, id));
      var rec :| rec in items && rec.id == id;
      assert rec in kept;
    }
  }

  /** The ids of a shown list are the shown ids. */
  lemma IdsShown(env: Env, rows: Rows, clubs: Option<set<string>>, entity: EntityName, items: seq<Record>)
    requires ListsShown(env, rows, clubs, entity, items)
    ensures forall id :: id in (set rec | rec in items :: rec.id) <==> Shown(rows, clubs, Key(entity, id))
  {
    hide Shown, FromRow;
  }

  lemma ListedShown(env: Env, rows: Rows, entity: EntityName, order: seq<string>, records: seq<Record>)
    requires Lists(order, LiveIds(rows, entity)) && |records| == |order|
    requires forall j | 0 <= j < |order| :: Key(entity, order[j]) in rows
    requires forall j | 0 <= j < |order| :: records[j] == FromRow(env, order[j], rows[Key(entity, order[j])])
    ensures ListsShown(env, rows, None, entity, records)
  {
    forall j | 0 <= j < |order|
      ensures records[j].id == order[j] && Shown(rows, None, Key(entity, order[j]))
    {
      assert order[j] in LiveIds(rows, entity);
    }
    forall id | Shown(rows, None, Key(entity, id))
      ensures exists rec | rec in records :: rec.id == id
    {
      assert Key(entity, id) in rows;
      assert id in order;
      var j: nat :| j < |order| && order[j] == id;
      assert records[j] in records;
    }
  }

  /** The tests of the ten filters, by what they look at: the shown clubs, and the ids of the students and sessions kept
      before. */
  function Keeps(clubs: set<string>, students: set<string>, sessions: set<string>, rec: Record): bool {
    match rec.body
    case Club(_, _, _, _, _, _, _) => rec.id in clubs
    case BeltRank(_, _, _, _) => true
    case ClubGroup(clubId, _, _, _) => clubId in clubs
    case ClubSchedule(clubId, _, _) => clubId in clubs
    case Student(_, _, _, _, _, _, _, clubId, _, _, _, _, _) => clubId in clubs
    case Session(clubId, _, _, _) => clubId in clubs
    case Message(_, clubId, _, _, _, _, _, _, _, _) => clubId in clubs
    case Profile(studentId, _) => studentId in students
    case StudentSchedule(studentId, _, _) => studentId in students
    case Attendance(sessionId, studentId, _, _, _) => sessionId in sessions || studentId in students
  }

  /** The ids kept before are those that are shown, as far as the table's filter looks at them. */
  ghost predicate KeptBefore(rows: Rows, clubs: set<string>, entity: EntityName, students: set<string>,
                             sessions: set<string>) {
    && (entity in {StudentScheduleProfiles, StudentSchedules, AttendanceRecords} ==>
          forall id :: id in students <==> StudentShown(rows, clubs, id))
    && (entity == AttendanceRecords ==> forall id :: id in sessions <==> SessionShown(rows, clubs, id))
  }

  lemma KeepsShown(env: Env, rows: Rows, clubs: set<string>, entity: EntityName, students: set<string>,
                   sessions: set<string>, rec: Record)
    requires Tagged(rows) && KeptBefore(rows, clubs, entity, students, sessions)
    requires Key(entity, rec.id) in rows && rec == FromRow(env, rec.id, rows[Key(entity, rec.id)])
    ensures Keeps(clubs, students, sessions, rec) <==> ShownTo(rows, clubs, Key(entity, rec.id))
  {
    hide StudentShown, SessionShown;
    assert EntityOf(rows[Key(entity, rec.id)].body) == entity;
  }

  /** The shown ids of students and sessions. */
  lemma StudentsShown(rows: Rows, clubs: set<string>, id: string)
    requires Tagged(rows)
    ensures Shown(rows, Some(clubs), Key(Students, id)) <==> StudentShown(rows, clubs, id)
    ensures Shown(rows, Some(clubs), Key(AttendanceSessions, id)) <==> SessionShown(rows, clubs, id)
  {
    if Key(Students, id) in rows {
      assert EntityOf(rows[Key(Students, id)].body) == Students;
    }
    if Key(AttendanceSessions, id) in rows {
      assert EntityOf(rows[Key(AttendanceSessions, id)].body) == AttendanceSessions;
    }
  }

  lemma NoOtherRows(rows: Rows, entity: EntityName, id: string)
    requires Tagged(rows) && entity.OtherEntity?
    ensures Key(entity, id) !in rows
  {
    assert forall k | k in rows :: EntityOf(rows[k].body) == k.entity;
  }

  /** What a client has after a rebase as system administrator is what it has after replaying the whole log, up to
      created_at: the lists are the live tables. */
  lemma RebaseIsTables(env: Env, core: Core, answer: Answer, k: Key)
    requires ValidEnv(env) && Reachable(env, core) && AnswersShown(env, core.rows, None, answer)
    ensures (exists rec | rec in ListOf(answer, k.entity) :: rec.id == k.id) <==> k in ClientFold(core.log)
    ensures forall rec | rec in ListOf(answer, k.entity) && rec.id == k.id && k in ClientFold(core.log) ::
      && k in core.rows && ToRow(env, rec) == Some(core.rows[k])
      && ToRow(env, ClientFold(core.log)[k]).Some?
      && ToRow(env, ClientFold(core.log)[k]).value.(createdAt := core.rows[k].createdAt) == core.rows[k]
  {
    hide Reachable, ClientFold, ToRow, FromRow, ValidEnv;
    FoldMatchesRebase(env, core);
    assert ListsShown(env, core.rows, None, k.entity, ListOf(answer, k.entity));
    assert Key(k.entity, k.id) == k;
    assert Shown(core.rows, None, k) <==> k in Rebased(env, core.rows);
  }

  lemma ReadableStudents(env: Env, rows: Rows, clubs: set<string>, students: seq<Record>)
    requires Tagged(rows) && ListsShown(env, rows, Some(clubs), Students, students)
    ensures var ids := set rec | rec in students :: rec.id;
      && (forall id :: id in ids <==> StudentShown(rows, clubs, id))
      && KeptBefore(rows, clubs, StudentScheduleProfiles, ids, {}) && KeptBefore(rows, clubs, StudentSchedules, ids, {})
  {
    hide ListsShown, Shown, StudentShown, Tagged;
    IdsShown(env, rows, Some(clubs), Students, students);
    forall id
      ensures Shown(rows, Some(clubs), Key(Students, id)) <==> StudentShown(rows, clubs, id)
    {
      StudentsShown(rows, clubs, id);
    }
  }

  lemma ReadableSessions(env: Env, rows: Rows, clubs: set<string>, students: set<string>, sessions: seq<Record>)
    requires Tagged(rows) && ListsShown(env, rows, Some(clubs), AttendanceSessions, sessions)
    requires forall id :: id in students <==> StudentShown(rows, clubs, id)
    ensures KeptBefore(rows, clubs, AttendanceRecords, students, set rec | rec in sessions :: rec.id)
  {
    hide ListsShown, Shown, SessionShown, Tagged;
    IdsShown(env, rows, Some(clubs), AttendanceSessions, sessions);
    forall id
      ensures Shown(rows, Some(clubs), Key(AttendanceSessions, id)) <==> SessionShown(rows, clubs, id)
    {
      StudentsShown(rows, clubs, id);
    }
  }

  /** The filters that look at nothing kept before. */
  lemma FirstFilters(rows: Rows, clubs: set<string>)
    ensures forall entity | entity in {Clubs, ClubGroups, ClubSchedules, Students, StudentMessages,
                                       AttendanceSessions} ::
      KeptBefore(rows, clubs, entity, {}, {})
  {
  }

  /** Every live belt rank is shown to everyone. */
  lemma RanksShown(env: Env, rows: Rows, clubs: set<string>, ranks: seq<Record>)
    requires Tagged(rows) && ListsShown(env, rows, None, BeltRanks, ranks)
    ensures ListsShown(env, rows, Some(clubs), BeltRanks, ranks)
  {
    hide FromRow;
    forall id | Key(BeltRanks, id) in rows
      ensures rows[Key(BeltRanks, id)].body.BeltRank?
    {
      assert EntityOf(rows[Key(BeltRanks, id)].body) == BeltRanks;
    }
  }

  /** Each of the ten lists holds what is shown of its table. */
  ghost predicate AnswersShown(env: Env, rows: Rows, clubs: Option<set<string>>, answer: Answer) {
    forall entity :: ListsShown(env, rows, clubs, entity, ListOf(answer, entity))
  }

  lemma CurrentLists(env: Env, rows: Rows, answer: Answer)
    requires AnswersShown(env, rows, None, answer)
    ensures ListsShown(env, rows, None, Clubs, answer.clubs)
    ensures ListsShown(env, rows, None, ClubGroups, answer.clubGroups)
    ensures ListsShown(env, rows, None, ClubSchedules, answer.clubSchedules)
    ensures ListsShown(env, rows, None, BeltRanks, answer.beltRanks)
    ensures ListsShown(env, rows, None, Students, answer.students)
    ensures ListsShown(env, rows, None, StudentMessages, answer.studentMessages)
    ensures ListsShown(env, rows, None, StudentScheduleProfiles, answer.studentScheduleProfiles)
    ensures ListsShown(env, rows, None, StudentSchedules, answer.studentSchedules)
    ensures ListsShown(env, rows, None, AttendanceSessions, answer.attendanceSessions)
    ensures ListsShown(env, rows, None, AttendanceRecords, answer.attendanceRecords)
  {
    hide ListsShown;
    assert ListOf(answer, Clubs) == answer.clubs && ListOf(answer, ClubGroups) == answer.clubGroups
      && ListOf(answer, ClubSchedules) == answer.clubSchedules && ListOf(answer, BeltRanks) == answer.beltRanks
      && ListOf(answer, Students) == answer.students && ListOf(answer, StudentMessages) == answer.studentMessages
      && ListOf(answer, StudentScheduleProfiles) == answer.studentScheduleProfiles
      && ListOf(answer, StudentSchedules) == answer.studentSchedules
      && ListOf(answer, AttendanceSessions) == answer.attendanceSessions
      && ListOf(answer, AttendanceRecords) == answer.attendanceRecords;
  }

  lemma NothingElseShown(env: Env, rows: Rows, clubs: Option<set<string>>)
    requires Tagged(rows)
    ensures forall entity: EntityName | entity.OtherEntity? :: ListsShown(env, rows, clubs, entity, [])
  {
    hide Tagged;
    forall entity: EntityName, id: string | entity.OtherEntity?
      ensures Key(entity, id) !in rows
    {
      NoOtherRows(rows, entity, id);
    }
  }

  class RebaseService {
    const store: SyncStore

    constructor (store: SyncStore)
      ensures this.store == store
    {
      this.store := store;
    }

    /** One list of ListAllCurrent. */
    method ListCurrent(entity: EntityName) returns (records: seq<Record>)
      requires ValidEnv(store.env)
      ensures ListsShown(store.env, store.rows, None, entity, records)
    {
      hide FromRow, ValidEnv;
      var ids := LiveIds(store.rows, entity);
      var order := store.env.listing(ids);
      ListingLists(store.env, ids);
      records := [];
      for i := 0 to |order|
        invariant |records| == i
        invariant forall j | 0 <= j < i :: Key(entity, order[j]) in store.rows
        invariant forall j | 0 <= j < i ::
          records[j] == FromRow(store.env, order[j], store.rows[Key(entity, order[j])])
      {
        assert order[i] in ids;
        records := records + [FromRow(store.env, order[i], store.rows[Key(entity, order[i])])];
      }
      ListedShown(store.env, store.rows, entity, order, records);
    }

    /** filterRecords, as its loop. */
    method FilterRecords(items: seq<Record>, keep: Record -> bool) returns (kept: seq<Record>)
      ensures kept == Filtered(items, keep)
    {
      kept := [];
      for i := 0 to |items|
        invariant kept == Filtered(items[..i], keep)
      {
        assert items[..i + 1][..i] == items[..i];
        if keep(items[i]) {
          kept := kept + [items[i]];
        }
      }
      assert items[..|items|] == items;
    }

    /** ListAllCurrent */
    method ListAllCurrent() returns (answer: Answer)
      requires ValidEnv(store.env) && Tagged(store.rows)
      ensures AnswersShown(store.env, store.rows, None, answer)
    {
      hide ListsShown, Tagged, ValidEnv;
      var clubs := ListCurrent(Clubs);
      var clubGroups := ListCurrent(ClubGroups);
      var clubSchedules := ListCurrent(ClubSchedules);
      var beltRanks := ListCurrent(BeltRanks);
      var students := ListCurrent(Students);
      var studentMessages := ListCurrent(StudentMessages);
      var profiles := ListCurrent(StudentScheduleProfiles);
      var studentSchedules := ListCurrent(StudentSchedules);
      var sessions := ListCurrent(AttendanceSessions);
      var records := ListCurrent(AttendanceRecords);
      NothingElseShown(store.env, store.rows, None);
      answer := Answer(clubs, clubGroups, clubSchedules, beltRanks, students, studentMessages, profiles,
                       studentSchedules, sessions, records);
    }

    /** The filters for a caller who is not a system administrator; belt ranks are not filtered. */
    method FilterAll(current: Answer, allowed: set<string>) returns (answer: Answer)
      requires Tagged(store.rows) && AnswersShown(store.env, store.rows, None, current)
      ensures AnswersShown(store.env, store.rows, Some(allowed), answer)
    {
      hide ListsShown, Tagged, KeptBefore;
      CurrentLists(store.env, store.rows, current);
      FirstFilters(store.rows, allowed);
      var clubs := FilterShown(Clubs, current.clubs, allowed, {}, {});
      var clubGroups := FilterShown(ClubGroups, current.clubGroups, allowed, {}, {});
      var clubSchedules := FilterShown(ClubSchedules, current.clubSchedules, allowed, {}, {});
      var students := FilterShown(Students, current.students, allowed, {}, {});
      var studentMessages := FilterShown(StudentMessages, current.studentMessages, allowed, {}, {});
      var readableStudents := set rec | rec in students :: rec.id;
      ReadableStudents(store.env, store.rows, allowed, students);
      var profiles :=
        FilterShown(StudentScheduleProfiles, current.studentScheduleProfiles, allowed, readableStudents, {});
      var studentSchedules :=
        FilterShown(StudentSchedules, current.studentSchedules, allowed, readableStudents, {});
      var sessions := FilterShown(AttendanceSessions, current.attendanceSessions, allowed, {}, {});
      var readableSessions := set rec | rec in sessions :: rec.id;
      ReadableSessions(store.env, store.rows, allowed, readableStudents, sessions);
      var records :=
        FilterShown(AttendanceRecords, current.attendanceRecords, allowed, readableStudents, readableSessions);
      RanksShown(store.env, store.rows, allowed, current.beltRanks);
      NothingElseShown(store.env, store.rows, Some(allowed));
      answer := Answer(clubs, clubGroups, clubSchedules, current.beltRanks, students, studentMessages, profiles,
                       studentSchedules, sessions, records);
    }

    /** Rebase: memberships are the clubs ListMemberships answers with, None an error. */
    method Rebase(caller: Caller, memberships: Option<set<string>>) returns (ok: bool, answer: Answer)
      requires ValidEnv(store.env) && Tagged(store.rows)
      ensures ok == (caller.userId != "" && (caller.sysAdmin || memberships.Some?))
      ensures ok ==>
        AnswersShown(store.env, store.rows, if caller.sysAdmin then None else memberships, answer)
    {
      hide AnswersShown, Tagged, ValidEnv;
      if caller.userId == "" {
        return false, EMPTY_ANSWER;
      }
      answer := ListAllCurrent();
      if caller.sysAdmin {
        return true, answer;
      }
      if memberships.None? {
        return false, EMPTY_ANSWER;
      }
      answer := FilterAll(answer, memberships.value);
      return true, answer;
    }

    /** One filter of Rebase. */
    method FilterShown(entity: EntityName, items: seq<Record>, clubs: set<string>, students: set<string>,
                       sessions: set<string>)
      returns (kept: seq<Record>)
      requires Tagged(store.rows) && ListsShown(store.env, store.rows, None, entity, items)
      requires KeptBefore(store.rows, clubs, entity, students, sessions)
      ensures ListsShown(store.env, store.rows, Some(clubs), entity, kept)
    {
      hide Keeps, ShownTo, FromRow, Tagged, KeptBefore;
      kept := FilterRecords(items, rec => Keeps(clubs, students, sessions, rec));
      forall rec | rec in items
        ensures Keeps(clubs, students, sessions, rec) <==> ShownTo(store.rows, clubs, Key(entity, rec.id))
      {
        KeepsShown(store.env, store.rows, clubs, entity, students, sessions, rec);
      }
      FilterShows(store.env, store.rows, clubs, entity, items, rec => Keeps(clubs, students, sessions, rec));
    }
  }
}
