/** Who is expected at a session: a filter over the club's active students, and the loops that compute it. */
module ExpectedSpec {
  import opened Text
  import opened Records
  import opened Tables

  function ActiveStudentIds(rows: Rows, clubId: string): set<string> {
    set k | k in rows && k.entity == Students && rows[k].deletedAt.None? && rows[k].body.Student?
            && rows[k].body.clubId == clubId && rows[k].body.status == "active" :: k.id
  }

  predicate IsClubDay(row: Row, clubId: string) {
    row.deletedAt.None? && row.body.ClubSchedule? && row.body.clubId == clubId && row.body.isActive
  }

  predicate IsProfileOf(row: Row, studentId: string) {
    row.deletedAt.None? && row.body.Profile? && row.body.studentId == studentId
  }

  predicate IsOwnDay(row: Row, studentId: string) {
    row.deletedAt.None? && row.body.StudentSchedule? && row.body.studentId == studentId && row.body.isActive
  }

  /** The weekdays of the club's live, active schedule. */
  ghost function ClubDays(rows: Rows, clubId: string): set<string> {
    set k | k in rows && IsClubDay(rows[k], clubId) :: rows[k].body.weekday
  }

  /** The student's live profile asks for its own days. */
  ghost predicate CustomMode(rows: Rows, studentId: string) {
    exists k | k in rows :: IsProfileOf(rows[k], studentId) && rows[k].body.mode == "custom"
  }

  /** The student's own live, active days. */
  ghost function OwnDays(rows: Rows, studentId: string): set<string> {
    set k | k in rows && IsOwnDay(rows[k], studentId) :: rows[k].body.weekday
  }

  /** A club without a schedule expects everyone; otherwise the weekday is a club day, and one of the student's own days
      if the student has a custom schedule. */
  ghost predicate Expected(rows: Rows, clubId: string, weekday: string, studentId: string) {
    || ClubDays(rows, clubId) == {}
    || (weekday in ClubDays(rows, clubId) && (CustomMode(rows, studentId) ==> weekday in OwnDays(rows, studentId)))
  }

  /** The students of a list that are expected, in list order. */
  ghost function ExpectedOf(rows: Rows, clubId: string, weekday: string, students: seq<Record>): seq<Record> {
    if students == [] then []
    else
      var n := |students| - 1;
      ExpectedOf(rows, clubId, weekday, students[..n]) + if Expected(rows, clubId, weekday, students[n].id)
        then [students[n]] else []
  }

  function NameOf(student: Record): string {
    if student.body.Student? then student.body.fullName else ""
  }

  /** strings.Compare(a, b) <= 0 on full names. */
  predicate NotBehind(a: Record, b: Record) {
    !TextLess(NameOf(b), NameOf(a))
  }

  ghost predicate SortedByName(students: seq<Record>) {
    forall i, j | 0 <= i < j < |students| :: NotBehind(students[i], students[j])
  }

  /** The rows a query returns, in the order of the listing. */
  function Listed(rows: Rows, entity: EntityName, order: seq<string>): seq<Row>
    requires forall id | id in order :: Key(entity, id) in rows
  {
    seq(|order|, i requires 0 <= i < |order| => rows[Key(entity, order[i])])
  }

  lemma {:induction false} ExpectedOfMembers(rows: Rows, clubId: string, weekday: string, students: seq<Record>)
    ensures forall s :: s in ExpectedOf(rows, clubId, weekday, students) <==>
      s in students && Expected(rows, clubId, weekday, s.id)
  {
    hide Expected;
    if students != [] {
      var n := |students| - 1;
      ExpectedOfMembers(rows, clubId, weekday, students[..n]);
      assert students == students[..n] + [students[n]];
    }
  }

  /** A club without a schedule expects the whole list. */
  lemma {:induction false} NoScheduleExpectsAll(rows: Rows, clubId: string, weekday: string, students: seq<Record>)
    requires ClubDays(rows, clubId) == {}
    ensures ExpectedOf(rows, clubId, weekday, students) == students
  {
    if students != [] {
      NoScheduleExpectsAll(rows, clubId, weekday, students[..|students| - 1]);
    }
  }

  lemma {:induction false} OffDayExpectsNobody(rows: Rows, clubId: string, weekday: string, students: seq<Record>)
    requires ClubDays(rows, clubId) != {} && weekday !in ClubDays(rows, clubId)
    ensures ExpectedOf(rows, clubId, weekday, students) == []
  {
    if students != [] {
      OffDayExpectsNobody(rows, clubId, weekday, students[..|students| - 1]);
    }
  }

  lemma {:induction false} NotBehindTransitive(a: string, b: string, c: string)
    requires !TextLess(b, a) && !TextLess(c, b)
    ensures !TextLess(c, a)
  {
    if a != "" && b != "" && c != "" && a[0] == b[0] == c[0] {
      NotBehindTransitive(a[1..], b[1..], c[1..]);
    }
  }
}

module ExpectedStudents {
  import opened Text
  import opened Records
  import opened Tables
  import opened History
  import opened PushSpec
  import opened SyncStoreModel
  import opened Authorization
  import opened ExpectedSpec
  import opened CreateSessionSpec
  import opened CreateSessionProofs

  /** slices.SortFunc by full name; which of two equal names comes first is left open. */
  method SortByName(students: seq<Record>) returns (sorted: seq<Record>)
    ensures multiset(sorted) == multiset(students) && SortedByName(sorted)
  {
    sorted := [];
    for i := 0 to |students|
      invariant multiset(sorted) == multiset(students[..i]) && SortedByName(sorted)
    {
      var p := |sorted|;
      while p > 0 && !NotBehind(sorted[p - 1], students[i])
        invariant 0 <= p <= |sorted|
        invariant forall j | p <= j < |sorted| :: NotBehind(students[i], sorted[j])
      {
        TextLessTotal(NameOf(students[i]), NameOf(sorted[p - 1]));
        TextLessAsymmetric(NameOf(students[i]), NameOf(sorted[p - 1]));
        p := p - 1;
      }
      InsertSorted(sorted, p, students[i]);
      assert students[..i + 1] == students[..i] + [students[i]];
      assert sorted == sorted[..p] + sorted[p..];
      sorted := sorted[..p] + [students[i]] + sorted[p..];
    }
    assert students[..|students|] == students;
  }

  lemma InsertSorted(sorted: seq<Record>, p: nat, student: Record)
    requires SortedByName(sorted) && p <= |sorted|
    requires p > 0 ==> NotBehind(sorted[p - 1], student)
    requires forall j | p <= j < |sorted| :: NotBehind(student, sorted[j])
    ensures SortedByName(sorted[..p] + [student] + sorted[p..])
  {
    var s := sorted[..p] + [student] + sorted[p..];
    forall i, j | 0 <= i < j < |s|
      ensures NotBehind(s[i], s[j])
    {
      if i < p && j == p && i < p - 1 {
        NotBehindTransitive(NameOf(sorted[i]), NameOf(sorted[p - 1]), NameOf(student));
      }
    }
  }

  class AttendanceRoster {
    const store: SyncStore

    constructor (store: SyncStore)
      ensures this.store == store
    {
      this.store := store;
    }

    /** ListActiveStudentsByClub */
    method ActiveStudents(clubId: string) returns (active: seq<Record>)
      requires ValidEnv(store.env)
      ensures DistinctStudents(active)
      ensures (set s | s in active :: s.id) == ActiveStudentIds(store.rows, clubId)
    {
      hide FromRow, ValidEnv;
      var ids := ActiveStudentIds(store.rows, clubId);
      var order := store.env.listing(ids);
      ListingLists(store.env, ids);
      assert forall i | 0 <= i < |order| :: order[i] in ids && Key(Students, order[i]) in store.rows;
      var rows := store.rows;
      active := seq(|order|, i requires 0 <= i < |order| && Key(Students, order[i]) in rows =>
        FromRow(store.env, order[i], rows[Key(Students, order[i])]));
      forall i | 0 <= i < |active|
        ensures active[i].id == order[i] && order[i] in ids
      {
        assert order[i] in order;
        FromRowKeepsId(store.env, order[i], rows[Key(Students, order[i])]);
      }
      forall id | id in ids
        ensures exists s | s in active :: s.id == id
      {
        var j := PositionOf(order, id);
        assert active[j] in active;
      }
    }

    /** CreateAttendanceSession. The weekday of a date, and the new ids, come from outside. */
    method Create(caller: Caller, club: string, date: string, notes: Option<string>, now: Time,
                  weekdayOf: Date -> string, sessionId: string, newIds: nat -> string)
      returns (ok: bool, session: Record, records: seq<Record>, ghost students: seq<Record>)
      requires ValidEnv(store.env) && Invariant(store.env, store.State().core)
      requires FreshIds(store.rows, sessionId, newIds)
      modifies store
      ensures var before := old(store.State());
        && ok == MayCreate(store.env, caller, before.core.rows, TrimSpace(club), TrimSpace(date))
        && (!ok ==> store.State() == before)
      ensures ok ==>
        var before, clubId, day := old(store.State()), TrimSpace(club), TrimSpace(date);
        && session == NewSession(store.env, sessionId, clubId, day, notes, now)
        && records == NewRecords(store.env, newIds, sessionId, students, now)
        && AreExpected(before.core.rows, clubId, weekdayOf(store.env.parseDate(day).value), students)
        && WriteAll(store.env, before.core, [session] + records, now).Some?
        && store.State() == before.(core := WriteAll(store.env, before.core, [session] + records, now).value,
                                    audit := before.audit + [CreationAudit(caller, session)])
        && Created(store.env, before.core, store.State().core, session, newIds, students, now)
        && KeyOf(session) == Key(AttendanceSessions, sessionId) && KeyOf(session) in store.rows
        && (var row := store.rows[KeyOf(session)];
            && row.body.Session? && TrimmedNotes(notes, row.body.notes)
            && row == Row(now, now, now, None,
                          Session(clubId, store.env.parseDate(day).value, "draft", row.body.notes)))
    {
      hide Invariant, ValidEnv, FreshIds, FoundSession, NewSession, Created, WriteAll, Write, AreExpected,
        NewRecord, TrimSpace, ExpectedOf, ActiveStudentIds, ClubDays, SortedByName, Indexed, Tagged, Referenced,
        DistinctStudents, FromRow, Replay, GroupsDistinct, NewRecords, CreationAudit, SessionIdsOn, TrimmedNotes;
      students, records := [], [];
      session := NewSession(store.env, sessionId, "", "", None, now);
      var clubId, day := TrimSpace(club), TrimSpace(date);
      if caller.userId == "" || clubId == "" || day == "" || store.env.parseDate(day).None? {
        return false, session, [], [];
      }
      if Decide(caller.permissions(clubId), AttendanceWrite) != Granted {
        return false, session, [], [];
      }
      ghost var before := store.State();
      InvariantParts(store.env, before.core);
      store.Begin();
      var read, existing := store.GetRecordForUpdate(Clubs, clubId);
      if existing.None? || existing.value.deletedAt.Some? || !existing.value.body.Club?
        || !existing.value.body.isActive {
        store.Rollback();
        return false, session, [], [];
      }
      var found := FoundSession(store.env, store.rows, clubId, store.env.parseDate(day).value);
      if found.Some? && found.value.deletedAt.None? {
        store.Rollback();
        return false, session, [], [];
      }
      session, records, students := BuildSnapshot(clubId, day, notes, now, weekdayOf, sessionId, newIds);
      NothingRefused(store.env, before.core, session, newIds, students, clubId, day, notes, now);
      SessionStored(store.env, before.core, session, newIds, students, clubId, day, notes, now);
      ok := store.UpsertRecord(session, now);
      ok := store.UpsertBatch(records, now);
      ok := store.InsertAuditLog(CreationAudit(caller, session));
      ok := store.Commit();
    }

    /** buildAttendanceSessionSnapshot */
    method BuildSnapshot(clubId: string, day: string, notes: Option<string>, now: Time, weekdayOf: Date -> string,
                         sessionId: string, newIds: nat -> string)
      returns (session: Record, records: seq<Record>, ghost students: seq<Record>)
      requires ValidEnv(store.env) && Tagged(store.rows) && Indexed(store.rows) && store.env.parseDate(day).Some?
      ensures session == NewSession(store.env, sessionId, clubId, day, notes, now)
      ensures session.id == sessionId && session.body.Session?
      ensures records == NewRecords(store.env, newIds, sessionId, students, now)
      ensures AreExpected(store.rows, clubId, weekdayOf(store.env.parseDate(day).value), students)
      ensures DistinctStudents(students) && forall s | s in students :: Stored(store.rows, Students, s.id)
    {
      hide ValidEnv, Tagged, Indexed, AreExpected, ExpectedOf, ActiveStudentIds, ClubDays, SortedByName,
        DistinctStudents;
      var active := ActiveStudents(clubId);
      var weekday := weekdayOf(store.env.parseDate(day).value);
      var expected := ListExpected(clubId, weekday, active);
      ExpectedRoster(store.rows, clubId, weekday, active, expected);
      students := expected;
      session := NewSession(store.env, sessionId, clubId, day, notes, now);
      records := NewRecords(store.env, newIds, sessionId, expected, now);
    }

    /** clubWeekdaySet */
    method ClubWeekdays(clubId: string) returns (days: set<string>)
      requires ValidEnv(store.env) && Tagged(store.rows)
      ensures days == ClubDays(store.rows, clubId)
    {
      var ids := set k | k in store.rows && k.entity == ClubSchedules && IsClubDay(store.rows[k], clubId) :: k.id;
      var order := store.env.listing(ids);
      assert Lists(order, ids);
      var found := Listed(store.rows, ClubSchedules, order);
      days := {};
      for i := 0 to |found|
        invariant days == set j | 0 <= j < i :: found[j].body.weekday
      {
        assert order[i] in ids;
        days := days + {found[i].body.weekday};
      }
      ClubDaysListed(store.rows, clubId, ids, order);
    }

    /** profileModeByStudentID */
    method ModesByStudent(students: set<string>) returns (modes: map<string, string>)
      requires ValidEnv(store.env) && Tagged(store.rows) && Indexed(store.rows)
      ensures forall id | id in students :: (id in modes && modes[id] == "custom") <==> CustomMode(store.rows, id)
    {
      var ids := set k | k in store.rows && k.entity == StudentScheduleProfiles && store.rows[k].deletedAt.None?
                         && store.rows[k].body.Profile? && store.rows[k].body.studentId in students :: k.id;
      var order := store.env.listing(ids);
      assert Lists(order, ids);
      var found := Listed(store.rows, StudentScheduleProfiles, order);
      modes := map[];
      for i := 0 to |found|
        invariant forall id | id in modes :: exists j | 0 <= j < i ::
          IsProfileOf(found[j], id) && found[j].body.mode == modes[id]
        invariant forall j | 0 <= j < i :: found[j].body.Profile? && found[j].body.studentId in modes
      {
        assert order[i] in ids;
        modes := modes[found[i].body.studentId := found[i].body.mode];
      }
      forall id | id in students
        ensures (id in modes && modes[id] == "custom") <==> CustomMode(store.rows, id)
      {
        ModeDecided(store.rows, students, ids, order, modes, id);
      }
    }

    /** customWeekdaysByStudentID */
    method DaysByStudent(students: set<string>) returns (days: map<string, set<string>>)
      requires ValidEnv(store.env) && Tagged(store.rows)
      ensures forall id | id in students :: (if id in days then days[id] else {}) == OwnDays(store.rows, id)
    {
      var ids := set k | k in store.rows && k.entity == StudentSchedules && store.rows[k].deletedAt.None?
                         && store.rows[k].body.StudentSchedule? && store.rows[k].body.isActive
                         && store.rows[k].body.studentId in students :: k.id;
      var order := store.env.listing(ids);
      assert Lists(order, ids);
      var found := Listed(store.rows, StudentSchedules, order);
      days := map[];
      for i := 0 to |found|
        invariant forall id :: (if id in days then days[id] else {}) == DaysAmong(found[..i], id)
      {
        assert order[i] in ids;
        var student, weekday := found[i].body.studentId, found[i].body.weekday;
        assert found[..i + 1] == found[..i] + [found[i]];
        DaysAmongNext(found[..i], found[i]);
        var known := if student in days then days[student] else {};
        days := days[student := known + {weekday}];
      }
      assert found[..|found|] == found;
      forall id | id in students
        ensures DaysAmong(found, id) == OwnDays(store.rows, id)
      {
        OwnDaysListed(store.rows, students, ids, order, id);
      }
    }

    /** listExpectedAttendanceStudents */
    method ListExpected(clubId: string, weekday: string, active: seq<Record>) returns (expected: seq<Record>)
      requires ValidEnv(store.env) && Tagged(store.rows) && Indexed(store.rows)
      ensures multiset(expected) == multiset(ExpectedOf(store.rows, clubId, weekday, active))
      ensures if ClubDays(store.rows, clubId) == {} then expected == active else SortedByName(expected)
    {
      hide Expected, ClubDays, CustomMode, OwnDays, ValidEnv, Indexed, Tagged, SortedByName;
      if active == [] {
        SortedNobody();
        return [];
      }
      var clubDays := ClubWeekdays(clubId);
      if clubDays == {} {
        NoScheduleExpectsAll(store.rows, clubId, weekday, active);
        return active;
      }
      if weekday !in clubDays {
        OffDayExpectsNobody(store.rows, clubId, weekday, active);
        SortedNobody();
        return [];
      }
      var students := set s | s in active :: s.id;
      var modes := ModesByStudent(students);
      var days := DaysByStudent(students);
      expected := [];
      for i := 0 to |active|
        invariant expected == ExpectedOf(store.rows, clubId, weekday, active[..i])
      {
        assert active[..i + 1][..i] == active[..i];
        assert active[i] in active && active[i].id in students;
        ExpectedOnClubDay(store.rows, clubId, weekday, active[i].id);
        var mode := if active[i].id in modes && modes[active[i].id] != "" then modes[active[i].id] else "inherit";
        if mode == "custom" {
          if active[i].id in days && weekday in days[active[i].id] {
            expected := expected + [active[i]];
          }
        } else {
          expected := expected + [active[i]];
        }
      }
      assert active[..|active|] == active;
      expected := SortByName(expected);
    }
  }

  lemma PositionOf(order: seq<string>, id: string) returns (j: nat)
    requires id in order
    ensures j < |order| && order[j] == id
  {
    j :| j < |order| && order[j] == id;
  }

  lemma SortedNobody()
    ensures SortedByName([])
  {
  }

  lemma ExpectedOnClubDay(rows: Rows, clubId: string, weekday: string, id: string)
    requires weekday in ClubDays(rows, clubId)
    ensures Expected(rows, clubId, weekday, id) <==> (CustomMode(rows, id) ==> weekday in OwnDays(rows, id))
  {
  }

  lemma ClubDaysListed(rows: Rows, clubId: string, ids: set<string>, order: seq<string>)
    requires Tagged(rows) && Lists(order, ids)
    requires ids == set k | k in rows && k.entity == ClubSchedules && IsClubDay(rows[k], clubId) :: k.id
    ensures forall id | id in order :: Key(ClubSchedules, id) in rows && rows[Key(ClubSchedules, id)].body.ClubSchedule?
    ensures (set j | 0 <= j < |order| :: Listed(rows, ClubSchedules, order)[j].body.weekday) == ClubDays(rows, clubId)
  {
    forall k | k in rows && IsClubDay(rows[k], clubId)
      ensures exists j | 0 <= j < |order| :: Listed(rows, ClubSchedules, order)[j] == rows[k]
    {
      assert EntityOf(rows[k].body) == k.entity;
      assert k.id in order;
      var j :| 0 <= j < |order| && order[j] == k.id;
      assert Listed(rows, ClubSchedules, order)[j] == rows[k];
    }
    forall j | 0 <= j < |order|
      ensures IsClubDay(Listed(rows, ClubSchedules, order)[j], clubId)
    {
      assert order[j] in ids;
    }
  }

  ghost function DaysAmong(found: seq<Row>, id: string): set<string> {
    set j | 0 <= j < |found| && IsOwnDay(found[j], id) :: found[j].body.weekday
  }

  lemma DaysAmongNext(found: seq<Row>, row: Row)
    requires row.deletedAt.None? && row.body.StudentSchedule? && row.body.isActive
    ensures forall id ::
      DaysAmong(found + [row], id)
        == (DaysAmong(found, id) + if id == row.body.studentId then {row.body.weekday} else {})
  {
    var more := found + [row];
    forall id
      ensures DaysAmong(more, id) == DaysAmong(found, id) + if id == row.body.studentId then {row.body.weekday} else {}
    {
      assert forall j | 0 <= j < |found| :: more[j] == found[j];
      assert more[|found|] == row;
    }
  }

  lemma OwnDaysListed(rows: Rows, students: set<string>, ids: set<string>, order: seq<string>, id: string)
    requires Tagged(rows) && Lists(order, ids) && id in students
    requires ids == set k | k in rows && k.entity == StudentSchedules && rows[k].deletedAt.None?
                            && rows[k].body.StudentSchedule? && rows[k].body.isActive
                            && rows[k].body.studentId in students :: k.id
    ensures forall i | i in order :: Key(StudentSchedules, i) in rows
    ensures DaysAmong(Listed(rows, StudentSchedules, order), id) == OwnDays(rows, id)
  {
    forall k | k in rows && IsOwnDay(rows[k], id)
      ensures exists j | 0 <= j < |order| :: Listed(rows, StudentSchedules, order)[j] == rows[k]
    {
      assert EntityOf(rows[k].body) == k.entity;
      assert k.id in order;
      var j :| 0 <= j < |order| && order[j] == k.id;
      assert Listed(rows, StudentSchedules, order)[j] == rows[k];
    }
  }

  lemma SameProfileRow(rows: Rows, k: Key, l: Key, id: string)
    requires Tagged(rows) && Indexed(rows) && k in rows && l in rows
    requires IsProfileOf(rows[k], id) && IsProfileOf(rows[l], id)
    ensures k == l
  {
    assert EntityOf(rows[l].body) == l.entity && EntityOf(rows[k].body) == k.entity;
    assert Collides(rows[l], rows[k]);
  }

  /** A student has at most one profile row, so the map holds that row's mode. */
  lemma ModeDecided(rows: Rows, students: set<string>, ids: set<string>, order: seq<string>, modes: map<string, string>,
                    id: string)
    requires Tagged(rows) && Indexed(rows) && Lists(order, ids) && id in students
    requires ids == set k | k in rows && k.entity == StudentScheduleProfiles && rows[k].deletedAt.None?
      && rows[k].body.Profile?
                            && rows[k].body.studentId in students :: k.id
    requires forall i | i in order :: Key(StudentScheduleProfiles, i) in rows
    requires var found := Listed(rows, StudentScheduleProfiles, order);
      && (forall i | i in modes :: exists j | 0 <= j < |order| ::
          IsProfileOf(found[j], i) && found[j].body.mode == modes[i])
      && (forall j | 0 <= j < |order| :: found[j].body.Profile? && found[j].body.studentId in modes)
    ensures (id in modes && modes[id] == "custom") <==> CustomMode(rows, id)
  {
    hide Indexed;
    var found := Listed(rows, StudentScheduleProfiles, order);
    if id in modes {
      var j :| 0 <= j < |order| && IsProfileOf(found[j], id) && found[j].body.mode == modes[id];
      var k := Key(StudentScheduleProfiles, order[j]);
      forall l | l in rows && IsProfileOf(rows[l], id)
        ensures l == k
      {
        SameProfileRow(rows, k, l, id);
      }
    }
    forall l | l in rows && IsProfileOf(rows[l], id)
      ensures id in modes
    {
      assert EntityOf(rows[l].body) == l.entity;
      assert l.id in order;
      var j :| 0 <= j < |order| && order[j] == l.id;
      assert found[j] == rows[l];
    }
  }

  lemma FromRowKeepsId(env: Env, id: string, row: Row)
    ensures FromRow(env, id, row).id == id
  {
  }

  /** The expected students, each once: exactly the active students of the club that are expected on the weekday, in
      name order if the club has a schedule. */
  ghost predicate AreExpected(rows: Rows, clubId: string, weekday: string, students: seq<Record>) {
    && DistinctStudents(students)
    && (forall id :: (exists s | s in students ::
                      s.id == id) <==> id in ActiveStudentIds(rows, clubId) && Expected(rows, clubId, weekday, id))
    && (ClubDays(rows, clubId) != {} ==> SortedByName(students))
    && (forall s | s in students :: Stored(rows, Students, s.id))
  }

  lemma ExpectedRoster(rows: Rows, clubId: string, weekday: string, active: seq<Record>, expected: seq<Record>)
    requires DistinctStudents(active) && (set s | s in active :: s.id) == ActiveStudentIds(rows, clubId)
    requires multiset(expected) == multiset(ExpectedOf(rows, clubId, weekday, active))
    requires ClubDays(rows, clubId) != {} ==> SortedByName(expected)
    ensures AreExpected(rows, clubId, weekday, expected) && DistinctStudents(expected)
    ensures forall s | s in expected :: Stored(rows, Students, s.id)
  {
    hide Expected, ClubDays, SortedByName, ActiveStudentIds;
    var kept := ExpectedOf(rows, clubId, weekday, active);
    ExpectedOfMembers(rows, clubId, weekday, active);
    ExpectedDistinct(rows, clubId, weekday, active);
    PermutedDistinct(kept, expected);
    SameMembers(kept, expected);
    assert forall s :: s in expected <==> s in active && Expected(rows, clubId, weekday, s.id);
    hide ExpectedOf, DistinctStudents;
    forall id
      ensures (exists s | s in expected :: s.id == id) <==>
        id in ActiveStudentIds(rows, clubId) && Expected(rows, clubId, weekday, id)
    {
      assert id in ActiveStudentIds(rows, clubId) <==> exists s | s in active :: s.id == id;
    }
    forall s | s in expected
      ensures Stored(rows, Students, s.id)
    {
      assert s.id in ActiveStudentIds(rows, clubId);
      ActiveIsStored(rows, clubId, s.id);
    }
  }

  lemma SameMembers(a: seq<Record>, b: seq<Record>)
    requires multiset(a) == multiset(b)
    ensures forall s :: s in a <==> s in b
  {
    assert forall s :: s in a <==> s in multiset(a);
    assert forall s :: s in b <==> s in multiset(b);
  }

  lemma ActiveIsStored(rows: Rows, clubId: string, id: string)
    requires id in ActiveStudentIds(rows, clubId)
    ensures Stored(rows, Students, id)
  {
  }

  /** The session and then the records of the expected students are all stored. */
  lemma NothingRefused(env: Env, core: Core, session: Record, newIds: nat -> string, students: seq<Record>,
                       clubId: string, date: string, notes: Option<string>, now: Time)
    requires ValidEnv(env) && Invariant(env, core) && FreshIds(core.rows, session.id, newIds)
    requires Live(core.rows, Clubs, clubId)
    requires env.parseDate(date).Some? && session == NewSession(env, session.id, clubId, date, notes, now)
    requires DistinctStudents(students) && forall s | s in students :: Stored(core.rows, Students, s.id)
    ensures var records := NewRecords(env, newIds, session.id, students, now);
      var written := WriteAll(env, core, [session] + records, now);
      && Write(env, core, session, now).Some?
      && written.Some? && WriteAll(env, Write(env, core, session, now).value, records, now) == written
      && Created(env, core, written.value, session, newIds, students, now)
  {
    hide Invariant, ValidEnv, FreshIds, Created, WriteAll, Write, NewRecords, NewSession, DistinctStudents;
    CreationSucceeds(env, core, session, newIds, students, clubId, date, notes, now);
    InTwoParts(env, core, session, NewRecords(env, newIds, session.id, students, now), now);
  }

  /** The new session as it stands among the tables in the end. */
  lemma SessionStored(env: Env, core: Core, session: Record, newIds: nat -> string, students: seq<Record>,
                      clubId: string, date: string, notes: Option<string>, now: Time)
    requires ValidEnv(env) && env.parseDate(date).Some?
    requires session == NewSession(env, session.id, clubId, date, notes, now)
    ensures KeyOf(session) == Key(AttendanceSessions, session.id)
    ensures forall after | Created(env, core, after, session, newIds, students, now) ::
      && KeyOf(session) in after.rows
      && (var row := after.rows[KeyOf(session)];
          && row.body.Session? && TrimmedNotes(notes, row.body.notes)
          && row == Row(now, now, now, None, Session(clubId, env.parseDate(date).value, "draft", row.body.notes)))
  {
    NewSessionStored(env, session.id, clubId, date, notes, now);
    hide ToRow, NormalizeOptional, TrimmedNotes, ValidEnv;
  }

  lemma InTwoParts(env: Env, core: Core, first: Record, rest: seq<Record>, now: Time)
    requires WriteAll(env, core, [first] + rest, now).Some?
    ensures Write(env, core, first, now).Some?
    ensures WriteAll(env, Write(env, core, first, now).value, rest, now) == WriteAll(env, core, [first] + rest, now)
  {
    hide Write;
    WriteAllPrefix(env, core, [first] + rest, 1, now);
    assert ([first] + rest)[..1] == [first] && [first][..0] == [];
    assert WriteAll(env, core, [first], now) == Write(env, core, first, now);
    WriteAllFirst(env, core, first, rest, now);
  }
}
