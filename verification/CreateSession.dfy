/** CreateAttendanceSession: a draft session with one unmarked record for each expected student. */
module CreateSessionSpec {
  import opened Text
  import opened Records
  import opened Tables
  import opened Authorization
  import opened PushSpec
  import opened ExpectedSpec

  function SessionIdsOn(rows: Rows, clubId: string, date: Date): set<string> {
    set k | k in rows && k.entity == AttendanceSessions && rows[k].body.Session?
            && rows[k].body.clubId == clubId && rows[k].body.sessionDate == date :: k.id
  }

  /** FindAttendanceSessionByClubAndDate: some session of the club on that date, deleted or not (LIMIT 1). */
  function FoundSession(env: Env, rows: Rows, clubId: string, date: Date): Option<Row> {
    var order := env.listing(SessionIdsOn(rows, clubId, date));
    if order == [] then None else Lookup(rows, AttendanceSessions, order[0])
  }

  /** normalizeOptionalString */
  function NormalizeOptional(value: Option<string>): Option<string> {
    if value.None? || TrimSpace(value.value) == "" then None else Some(TrimSpace(value.value))
  }

  function NewSession(env: Env, id: string, clubId: string, date: string, notes: Option<string>, now: Time): Record {
    var t := env.formatTime(now);
    Record(id, t, t, t, "synced", None, Session(clubId, date, "draft", NormalizeOptional(notes)))
  }

  function NewRecord(env: Env, id: string, sessionId: string, studentId: string, now: Time): Record {
    var t := env.formatTime(now);
    Record(id, t, t, t, "synced", None, Attendance(sessionId, studentId, "unmarked", None, None))
  }

  function NewRecords(env: Env, newIds: nat -> string, sessionId: string, students: seq<Record>,
                      now: Time): seq<Record> {
    seq(|students|, i requires 0 <= i < |students| => NewRecord(env, newIds(i), sessionId, students[i].id, now))
  }

  /** The checks before anything is written. */
  predicate MayCreate(env: Env, caller: Caller, rows: Rows, clubId: string, date: string) {
    && caller.userId != "" && clubId != "" && date != "" && env.parseDate(date).Some?
    && Decide(caller.permissions(clubId), AttendanceWrite).Granted?
    && Live(rows, Clubs, clubId) && rows[Key(Clubs, clubId)].body.Club? && rows[Key(Clubs, clubId)].body.isActive
    && (var found := FoundSession(env, rows, clubId, env.parseDate(date).value);
        found.None? || found.value.deletedAt.Some?)
  }

  function CreationAudit(caller: Caller, session: Record): AuditRow
    requires session.body.Session?
  {
    AuditRow(caller.userId, Some(session.body.clubId), AttendanceSessions, Some(session.id), "create", None,
             Some(session), "")
  }

  /** New ids that nothing is stored under. */
  ghost predicate FreshIds(rows: Rows, sessionId: string, newIds: nat -> string) {
    && sessionId != "" && !Stored(rows, AttendanceSessions, sessionId)
    && (forall i: nat :: !Stored(rows, AttendanceRecords, newIds(i)))
    && (forall i: nat, j: nat | i != j :: newIds(i) != newIds(j))
  }
}

module CreateSessionProofs {
  import opened Text
  import opened Records
  import opened Tables
  import opened Lookups
  import opened History
  import opened Authorization
  import opened PushSpec
  import opened ExpectedSpec
  import opened CreateSessionSpec

  ghost predicate DistinctStudents(students: seq<Record>) {
    forall i, j | 0 <= i < j < |students| :: students[i].id != students[j].id
  }

  /** The tables once the session and the records of the first n students are written. */
  ghost predicate Created(env: Env, before: Core, after: Core, session: Record, newIds: nat -> string,
                          students: seq<Record>, now: Time) {
    && after.rows.Keys
         == before.rows.Keys + {KeyOf(session)} + (set i: nat | i < |students| :: Key(AttendanceRecords, newIds(i)))
    && (forall k | k in before.rows :: after.rows[k] == before.rows[k])
    && ToRow(env, session) == Some(after.rows[KeyOf(session)])
    && (forall i: nat | i < |students| ::
          after.rows[Key(AttendanceRecords, newIds(i))] ==
            Row(now, now, now, None, Attendance(session.id, students[i].id, "unmarked", None, None)))
  }

  lemma SessionWritten(env: Env, core: Core, session: Record, newIds: nat -> string, clubId: string, date: string,
                       notes: Option<string>, now: Time)
    requires ValidEnv(env) && Tagged(core.rows) && FreshIds(core.rows, session.id, newIds)
    requires Live(core.rows, Clubs, clubId)
    requires env.parseDate(date).Some? && session == NewSession(env, session.id, clubId, date, notes, now)
    ensures Write(env, core, session, now).Some?
    ensures Created(env, core, Write(env, core, session, now).value, session, newIds, [], now)
    ensures Vetted(env, core.rows, session, now, true)
  {
    assert env.parseTime(env.formatTime(now)) == Some(now);
    assert ToRow(env, session)
      == Some(Row(now, now, now, None, Session(clubId, env.parseDate(date).value, "draft", NormalizeOptional(notes))));
    hide ToRow, NormalizeOptional;
  }

  lemma RecordWritten(env: Env, before: Core, core: Core, session: Record, newIds: nat -> string, students: seq<Record>,
                      n: nat, now: Time)
    requires ValidEnv(env) && Tagged(before.rows) && Referenced(env, before)
    requires FreshIds(before.rows, session.id, newIds) && session.body.Session?
    requires n < |students| && DistinctStudents(students) && Stored(before.rows, Students, students[n].id)
    requires Created(env, before, core, session, newIds, students[..n], now)
    ensures var rec := NewRecord(env, newIds(n), session.id, students[n].id, now);
      && Write(env, core, rec, now).Some?
      && Created(env, before, Write(env, core, rec, now).value, session, newIds, students[..n + 1], now)
      && Vetted(env, core.rows, rec, now, true)
  {
    var rec := NewRecord(env, newIds(n), session.id, students[n].id, now);
    var row := Row(now, now, now, None, Attendance(session.id, students[n].id, "unmarked", None, None));
    NewRecordStored(env, newIds(n), session.id, students[n].id, now);
    RecordFits(env, before, core, session, newIds, students, n, now);
    CreatedSoFar(env, before, core, session, newIds, students, n, now);
    hide ToRow, FitsIndexes, Referenced, NewRecord, Tagged, ValidEnv, Created, FreshIds, DistinctStudents, EntityOf;
    assert ForeignKeysHold(env.users, core.rows, row.body);
    var after := Write(env, core, rec, now).value;
    assert after.rows == core.rows[KeyOf(rec) := row];
    hide ForeignKeysHold;
    RecordAdded(env, before, core, after, session, newIds, students, n, now);
  }

  lemma CreatedSoFar(env: Env, before: Core, core: Core, session: Record, newIds: nat -> string, students: seq<Record>,
                     n: nat, now: Time)
    requires FreshIds(before.rows, session.id, newIds) && n < |students| && session.body.Session?
    requires Created(env, before, core, session, newIds, students[..n], now)
    ensures Stored(core.rows, AttendanceSessions, session.id) && Key(AttendanceRecords, newIds(n)) !in core.rows
    ensures Stored(before.rows, Students, students[n].id) ==> Stored(core.rows, Students, students[n].id)
  {
    hide ToRow;
  }

  lemma NewRecordStored(env: Env, id: string, sessionId: string, studentId: string, now: Time)
    requires ValidEnv(env)
    ensures var rec := NewRecord(env, id, sessionId, studentId, now);
      && KeyOf(rec) == Key(AttendanceRecords, id) && rec.body.Attendance?
      && ToRow(env, rec) == Some(Row(now, now, now, None, Attendance(sessionId, studentId, "unmarked", None, None)))
  {
    assert env.parseTime(env.formatTime(now)) == Some(now);
  }

  lemma RecordAdded(env: Env, before: Core, core: Core, after: Core, session: Record, newIds: nat -> string,
                    students: seq<Record>, n: nat, now: Time)
    requires FreshIds(before.rows, session.id, newIds) && n < |students| && session.body.Session?
    requires Created(env, before, core, session, newIds, students[..n], now)
    requires after.rows == core.rows[Key(AttendanceRecords, newIds(n)) :=
                                       Row(now, now, now, None,
                                           Attendance(session.id, students[n].id, "unmarked", None, None))]
    ensures Created(env, before, after, session, newIds, students[..n + 1], now)
  {
    hide ToRow;
    assert forall i: nat | i < n :: students[..n][i] == students[..n + 1][i] == students[i];
  }

  lemma OtherStudentFits(row: Row, other: Row)
    requires row.body.Attendance? && other.body.Attendance? && row.body.studentId != other.body.studentId
    ensures !Collides(row, other)
  {
  }

  /** No other row is about this new session and student. */
  lemma RecordFits(env: Env, before: Core, core: Core, session: Record, newIds: nat -> string, students: seq<Record>,
                   n: nat, now: Time)
    requires Tagged(before.rows) && Referenced(env, before) && FreshIds(before.rows, session.id, newIds)
    requires n < |students| && DistinctStudents(students) && session.body.Session?
    requires Created(env, before, core, session, newIds, students[..n], now)
    ensures FitsIndexes(core.rows, Key(AttendanceRecords, newIds(n)),
                        Row(now, now, now, None, Attendance(session.id, students[n].id, "unmarked", None, None)))
  {
    var key := Key(AttendanceRecords, newIds(n));
    var row := Row(now, now, now, None, Attendance(session.id, students[n].id, "unmarked", None, None));
    hide ToRow, Tagged, Referenced, Collides;
    forall k | k in core.rows && k != key && k.entity == key.entity
      ensures !Collides(row, core.rows[k])
    {
      if k in before.rows {
        NotAboutNewSession(env, before, session.id, k);
      } else {
        var i: nat :| i < n && k == Key(AttendanceRecords, newIds(i));
        assert students[..n][i] == students[i];
        OtherStudentFits(row, core.rows[k]);
      }
    }
    hide Created;
  }

  lemma NotAboutNewSession(env: Env, before: Core, sessionId: string, k: Key)
    requires Tagged(before.rows) && Referenced(env, before) && !Stored(before.rows, AttendanceSessions, sessionId)
    requires k in before.rows && k.entity == AttendanceRecords
    ensures before.rows[k].body.Attendance? && before.rows[k].body.sessionId != sessionId
  {
    assert EntityOf(before.rows[k].body) == AttendanceRecords;
    assert ForeignKeysHold(env.users, before.rows, before.rows[k].body);
  }

  lemma {:induction false} RecordsWritten(env: Env, before: Core, session: Record, newIds: nat -> string,
                                          students: seq<Record>, n: nat,
                                          clubId: string, date: string, notes: Option<string>, now: Time)
    requires ValidEnv(env) && Invariant(env, before) && FreshIds(before.rows, session.id, newIds)
    requires Live(before.rows, Clubs, clubId)
    requires env.parseDate(date).Some? && session == NewSession(env, session.id, clubId, date, notes, now)
    requires n <= |students| && DistinctStudents(students)
    requires forall s | s in students :: Stored(before.rows, Students, s.id)
    ensures var recs := [session] + NewRecords(env, newIds, session.id, students, now);
      && WriteAll(env, before, recs[..n + 1], now).Some?
      && Created(env, before, WriteAll(env, before, recs[..n + 1], now).value, session, newIds, students[..n], now)
      && VettedAt(env, before, recs, now, true, n)
  {
    hide Invariant, Created, Vetted, FreshIds, NewRecord, NewSession, ValidEnv, Write, Tagged, Referenced, Replay,
      Indexed, GroupsDistinct, DistinctStudents, FromRow;
    var recs := [session] + NewRecords(env, newIds, session.id, students, now);
    assert recs[..n + 1][..n] == recs[..n] && recs[..n + 1][n] == recs[n];
    assert Tagged(before.rows) && Referenced(env, before) by {
      InvariantParts(env, before);
    }
    if n == 0 {
      assert recs[..0] == [];
      assert students[..0] == [];
      SessionWritten(env, before, session, newIds, clubId, date, notes, now);
    } else {
      RecordsWritten(env, before, session, newIds, students, n - 1, clubId, date, notes, now);
      assert students[n - 1] in students;
      NewIsSession(env, session.id, clubId, date, notes, now);
      RecordWritten(env, before, WriteAll(env, before, recs[..n], now).value, session, newIds, students, n - 1, now);
    }
  }

  lemma NewIsSession(env: Env, id: string, clubId: string, date: string, notes: Option<string>, now: Time)
    ensures NewSession(env, id, clubId, date, notes, now).body.Session?
  {
  }

  /** With new ids nothing in the database can refuse the session or its records, and all of it is one vetted
      transaction. */
  lemma CreationSucceeds(env: Env, before: Core, session: Record, newIds: nat -> string, students: seq<Record>,
                         clubId: string, date: string, notes: Option<string>, now: Time)
    requires ValidEnv(env) && Invariant(env, before) && FreshIds(before.rows, session.id, newIds)
    requires Live(before.rows, Clubs, clubId)
    requires env.parseDate(date).Some? && session == NewSession(env, session.id, clubId, date, notes, now)
    requires DistinctStudents(students) && forall s | s in students :: Stored(before.rows, Students, s.id)
    ensures var recs := [session] + NewRecords(env, newIds, session.id, students, now);
      && WriteAll(env, before, recs, now).Some?
      && Created(env, before, WriteAll(env, before, recs, now).value, session, newIds, students, now)
      && Evolves(env, before, WriteAll(env, before, recs, now).value, now, true)
  {
    hide Invariant, Created, VettedAt, FreshIds, NewRecord, NewSession, WriteAll, ValidEnv;
    var recs := [session] + NewRecords(env, newIds, session.id, students, now);
    RecordsWritten(env, before, session, newIds, students, |students|, clubId, date, notes, now);
    assert recs[..|students| + 1] == recs && students[..|students|] == students;
    forall i: nat | i < |recs|
      ensures VettedAt(env, before, recs, now, true, i)
    {
      RecordsWritten(env, before, session, newIds, students, i, clubId, date, notes, now);
    }
    EvolvesBatch(env, before, recs, now, true);
  }

  // ----- who may create, and what is stored ----------------------------------------

  /** The caller, the club and the date are in order: all named, attendance may be written in the club, and the club is
      live and active. */
  ghost predicate InOrder(env: Env, caller: Caller, rows: Rows, clubId: string, text: string) {
    && caller.userId != "" && clubId != "" && text != "" && env.parseDate(text).Some?
    && caller.permissions(clubId).Some? && AttendanceWrite in caller.permissions(clubId).value
    && Live(rows, Clubs, clubId) && rows[Key(Clubs, clubId)].body.Club? && rows[Key(Clubs, clubId)].body.isActive
  }

  /** A session of the club on the date. */
  ghost predicate SessionOn(rows: Rows, clubId: string, date: Date, id: string) {
    var key := Key(AttendanceSessions, id);
    && key in rows && rows[key].body.Session? && rows[key].body.clubId == clubId && rows[key].body.sessionDate == date
  }

  /** Who is let through: if everything is in order, a creation is let through when every session of the date is
      deleted, is refused when there is one and none is deleted, and otherwise depends on the one that the query lists
      first. */
  lemma MayCreateExactly(env: Env, caller: Caller, rows: Rows, clubId: string, text: string)
    requires ValidEnv(env)
    ensures MayCreate(env, caller, rows, clubId, text) ==> InOrder(env, caller, rows, clubId, text)
    ensures InOrder(env, caller, rows, clubId, text) ==>
      var date := env.parseDate(text).value;
      && ((forall id | SessionOn(rows, clubId, date, id) :: !Live(rows, AttendanceSessions, id)) ==>
            MayCreate(env, caller, rows, clubId, text))
      && ((exists id :: SessionOn(rows, clubId, date, id))
          && (forall id | SessionOn(rows, clubId, date, id) :: Live(rows, AttendanceSessions, id)) ==>
            !MayCreate(env, caller, rows, clubId, text))
      && (forall first, rest | env.listing(SessionIdsOn(rows, clubId, date)) == [first] + rest ::
            MayCreate(env, caller, rows, clubId, text) <==> !Live(rows, AttendanceSessions, first))
  {
    if env.parseDate(text).Some? {
      var date := env.parseDate(text).value;
      var ids := SessionIdsOn(rows, clubId, date);
      SessionsOn(rows, clubId, date);
      ListingLists(env, ids);
      var order := env.listing(ids);
      if order != [] {
        assert order[0] in order;
      }
      hide SessionIdsOn, ValidEnv;
      assert forall id :: id in order <==> SessionOn(rows, clubId, date, id);
    }
  }

  lemma SessionsOn(rows: Rows, clubId: string, date: Date)
    ensures forall id :: id in SessionIdsOn(rows, clubId, date) <==> SessionOn(rows, clubId, date, id)
  {
    forall id | SessionOn(rows, clubId, date, id)
      ensures id in SessionIdsOn(rows, clubId, date)
    {
      assert Key(AttendanceSessions, id) in rows;
    }
  }

  /** The notes a new session is to have: the trimmed text, or none if nothing is left of it. */
  ghost predicate TrimmedNotes(given: Option<string>, stored: Option<string>) {
    match given
    case None => stored.None?
    case Some(text) => if TrimSpace(text) == "" then stored.None? else stored == Some(TrimSpace(text))
  }

  /** A new session is stored as a draft of its club and date, as of `now`, with the trimmed notes. */
  lemma NewSessionStored(env: Env, id: string, clubId: string, text: string, notes: Option<string>, now: Time)
    requires ValidEnv(env) && env.parseDate(text).Some?
    ensures var stored := ToRow(env, NewSession(env, id, clubId, text, notes, now));
      && stored.Some? && stored.value.body.Session? && TrimmedNotes(notes, stored.value.body.notes)
      && stored.value == Row(now, now, now, None,
                             Session(clubId, env.parseDate(text).value, "draft", stored.value.body.notes))
  {
    assert env.parseTime(env.formatTime(now)) == Some(now);
  }

  // ----- one live session per club and date ---------------------------------------

  /** Two live sessions of the club on one date. */
  ghost predicate TwoLiveOn(rows: Rows, clubId: string, date: Date) {
    exists a, b | a in SessionIdsOn(rows, clubId, date) && b in SessionIdsOn(rows, clubId, date) ::
      a != b && Live(rows, AttendanceSessions, a) && Live(rows, AttendanceSessions, b)
  }

  /** No club has two live sessions on one date. */
  ghost predicate OneSessionADay(rows: Rows) {
    forall clubId, date :: !TwoLiveOn(rows, clubId, date)
  }

  /** The session the query looks at is deleted, and another one of the date is live. */
  ghost predicate HiddenLiveSession(env: Env, rows: Rows, clubId: string, date: Date) {
    var order := env.listing(SessionIdsOn(rows, clubId, date));
    && order != [] && !Live(rows, AttendanceSessions, order[0])
    && exists i | 1 <= i < |order| :: Live(rows, AttendanceSessions, order[i])
  }

  /** What a creation adds: its session to its date, live, and nothing to any other club or date. */
  lemma SessionsAfter(env: Env, before: Core, after: Core, session: Record, newIds: nat -> string,
                      students: seq<Record>,
                      clubId: string, text: string, notes: Option<string>, now: Time, other: string, date: Date)
    requires ValidEnv(env) && FreshIds(before.rows, session.id, newIds) && env.parseDate(text).Some?
    requires session == NewSession(env, session.id, clubId, text, notes, now)
    requires Created(env, before, after, session, newIds, students, now)
    ensures SessionIdsOn(after.rows, other, date) == SessionIdsOn(before.rows, other, date) +
      (if other == clubId && date == env.parseDate(text).value then {session.id} else {})
    ensures Live(after.rows, AttendanceSessions, session.id) && session.id !in SessionIdsOn(before.rows, other, date)
    ensures forall id | id in SessionIdsOn(before.rows, other, date) ::
      Live(after.rows, AttendanceSessions, id) <==> Live(before.rows, AttendanceSessions, id)
  {
    NewSessionRow(env, session, clubId, text, notes, now);
    var key := Key(AttendanceSessions, session.id);
    assert after.rows[key] == ToRow(env, session).value;
    hide ToRow, NormalizeOptional, NewSession;
    forall id: string
      ensures id in SessionIdsOn(after.rows, other, date) <==>
        id in SessionIdsOn(before.rows, other, date)
          || (id == session.id && other == clubId && date == env.parseDate(text).value)
    {
      var k := Key(AttendanceSessions, id);
      assert k in after.rows <==> k in before.rows || id == session.id;
      assert id in SessionIdsOn(after.rows, other, date) <==>
        k in after.rows && after.rows[k].body.Session? && after.rows[k].body.clubId == other
          && after.rows[k].body.sessionDate == date;
      assert id in SessionIdsOn(before.rows, other, date) <==>
        k in before.rows && before.rows[k].body.Session? && before.rows[k].body.clubId == other
          && before.rows[k].body.sessionDate == date;
    }
  }

  lemma NewSessionRow(env: Env, session: Record, clubId: string, text: string, notes: Option<string>, now: Time)
    requires ValidEnv(env) && env.parseDate(text).Some?
    requires session == NewSession(env, session.id, clubId, text, notes, now)
    ensures KeyOf(session) == Key(AttendanceSessions, session.id) && ToRow(env, session).Some?
    ensures var row := ToRow(env, session).value;
      row.deletedAt.None? && row.body == Session(clubId, env.parseDate(text).value, "draft", NormalizeOptional(notes))
  {
    assert env.parseTime(env.formatTime(now)) == Some(now);
  }

  /** A creation that is let through leaves two live sessions of its club and date exactly if, before it, the session
      the query looks at was deleted while another one was live. On every other club and date it changes nothing. */
  lemma SecondSession(env: Env, caller: Caller, before: Core, after: Core, session: Record, newIds: nat -> string,
                      students: seq<Record>, clubId: string, text: string, notes: Option<string>, now: Time)
    requires ValidEnv(env) && MayCreate(env, caller, before.rows, clubId, text)
    requires FreshIds(before.rows, session.id, newIds)
    requires session == NewSession(env, session.id, clubId, text, notes, now)
    requires Created(env, before, after, session, newIds, students, now)
    ensures TwoLiveOn(after.rows, clubId, env.parseDate(text).value) <==>
      HiddenLiveSession(env, before.rows, clubId, env.parseDate(text).value)
    ensures forall other, date | other != clubId || date != env.parseDate(text).value ::
      TwoLiveOn(after.rows, other, date) <==> TwoLiveOn(before.rows, other, date)
  {
    hide FoundSession, Created, FreshIds, SessionIdsOn, ValidEnv, NewSession, HiddenLiveSession, TwoLiveOn, Live;
    var day := env.parseDate(text).value;
    SessionsAfter(env, before, after, session, newIds, students, clubId, text, notes, now, clubId, day);
    HiddenIfAnyLive(env, caller, before.rows, clubId, text);
    OneMoreLive(before.rows, after.rows, session.id, clubId, day);
    forall other, date | other != clubId || date != day
      ensures TwoLiveOn(after.rows, other, date) <==> TwoLiveOn(before.rows, other, date)
    {
      SessionsAfter(env, before, after, session, newIds, students, clubId, text, notes, now, other, date);
      SameLive(before.rows, after.rows, other, date);
    }
  }

  lemma OneMoreLive(before: Rows, after: Rows, id: string, clubId: string, day: Date)
    requires SessionIdsOn(after, clubId, day) == SessionIdsOn(before, clubId, day) + {id}
    requires id !in SessionIdsOn(before, clubId, day) && Live(after, AttendanceSessions, id)
    requires forall i | i in SessionIdsOn(before, clubId, day) ::
      Live(after, AttendanceSessions, i) <==> Live(before, AttendanceSessions, i)
    ensures TwoLiveOn(after, clubId, day) <==> exists i | i in SessionIdsOn(before, clubId, day) ::
      Live(before, AttendanceSessions, i)
  {
    hide SessionIdsOn, Live;
    if i :| i in SessionIdsOn(before, clubId, day) && Live(before, AttendanceSessions, i) {
      assert i in SessionIdsOn(after, clubId, day) && id in SessionIdsOn(after, clubId, day);
    }
  }

  lemma SameLive(before: Rows, after: Rows, clubId: string, day: Date)
    requires SessionIdsOn(after, clubId, day) == SessionIdsOn(before, clubId, day)
    requires forall i | i in SessionIdsOn(before, clubId, day) ::
      Live(after, AttendanceSessions, i) <==> Live(before, AttendanceSessions, i)
    ensures TwoLiveOn(after, clubId, day) <==> TwoLiveOn(before, clubId, day)
  {
    hide SessionIdsOn, Live;
  }

  /** The check lets a creation through past a live session exactly if the query does not look at it. */
  lemma HiddenIfAnyLive(env: Env, caller: Caller, rows: Rows, clubId: string, text: string)
    requires ValidEnv(env) && MayCreate(env, caller, rows, clubId, text)
    ensures HiddenLiveSession(env, rows, clubId, env.parseDate(text).value) <==>
      exists id | id in SessionIdsOn(rows, clubId, env.parseDate(text).value) :: Live(rows, AttendanceSessions, id)
  {
    var ids := SessionIdsOn(rows, clubId, env.parseDate(text).value);
    var order := env.listing(ids);
    assert Lists(order, ids);
    if id :| id in ids && Live(rows, AttendanceSessions, id) {
      assert id in order;
      var i :| 0 <= i < |order| && order[i] == id;
      assert i != 0;
      assert order[0] in order;
    }
    forall i | 0 <= i < |order|
      ensures order[i] in ids
    {
      assert order[i] in order;
    }
  }

  /** Where it does hold: while no session of the date has been deleted, a creation keeps one live session a day. */
  lemma OneSessionKept(env: Env, caller: Caller, before: Core, after: Core, session: Record, newIds: nat -> string,
                       students: seq<Record>, clubId: string, text: string, notes: Option<string>, now: Time)
    requires ValidEnv(env) && MayCreate(env, caller, before.rows, clubId, text)
    requires FreshIds(before.rows, session.id, newIds)
    requires session == NewSession(env, session.id, clubId, text, notes, now)
    requires Created(env, before, after, session, newIds, students, now)
    requires OneSessionADay(before.rows)
    ensures OneSessionADay(after.rows) <==> !HiddenLiveSession(env, before.rows, clubId, env.parseDate(text).value)
    ensures (forall id | id in SessionIdsOn(before.rows, clubId, env.parseDate(text).value) ::
             Live(before.rows, AttendanceSessions, id)) ==>
      OneSessionADay(after.rows)
  {
    SecondSession(env, caller, before, after, session, newIds, students, clubId, text, notes, now);
    var day := env.parseDate(text).value;
    var order := env.listing(SessionIdsOn(before.rows, clubId, day));
    assert Lists(order, SessionIdsOn(before.rows, clubId, day));
    assert order != [] ==> order[0] in order;
    hide MayCreate, Created, FreshIds, SessionIdsOn, ValidEnv, NewSession, TwoLiveOn;
  }

  /** And it happens: a deleted session listed before a live one of the same club and date. Whatever the creation
      writes, the date then has two live sessions. */
  lemma SecondSessionSlipsIn(env: Env, caller: Caller, before: Core, after: Core, club: Row, gone: Row, live: Row,
                             day: Date, session: Record, newIds: nat -> string, students: seq<Record>,
                             notes: Option<string>, now: Time)
    requires ValidEnv(env) && env.listing({"a", "b"}) == ["a", "b"]
    requires club.deletedAt.None? && club.body.Club? && club.body.isActive
    requires gone.body == live.body == Session("c", day, "draft", None) && gone.deletedAt.Some? && live.deletedAt.None?
    requires before.rows
      == map[Key(Clubs, "c") := club, Key(AttendanceSessions, "a") := gone, Key(AttendanceSessions, "b") := live]
    requires caller.userId != "" && Decide(caller.permissions("c"), AttendanceWrite).Granted?
    requires FreshIds(before.rows, session.id, newIds)
    requires session == NewSession(env, session.id, "c", env.formatDate(day), notes, now)
    requires Created(env, before, after, session, newIds, students, now)
    ensures MayCreate(env, caller, before.rows, "c", env.formatDate(day)) && TwoLiveOn(after.rows, "c", day)
  {
    hide Created, FreshIds, NewSession, TwoLiveOn, Decide;
    FormattedNotEmpty(env, 0, day);
    assert env.parseDate(env.formatDate(day)) == Some(day);
    hide ValidEnv;
    assert Key(AttendanceSessions, "a") in before.rows && Key(AttendanceSessions, "b") in before.rows;
    assert SessionIdsOn(before.rows, "c", day) == {"a", "b"};
    assert Live(before.rows, AttendanceSessions, env.listing({"a", "b"})[1]);
    SecondSession(env, caller, before, after, session, newIds, students, "c", env.formatDate(day), notes, now);
  }

  // ----- permutations -----------------------------------------------------------

  lemma {:induction false} CountOnce(students: seq<Record>, s: Record)
    requires DistinctStudents(students)
    ensures multiset(students)[s] <= 1
  {
    if students != [] {
      var n := |students| - 1;
      CountOnce(students[..n], s);
      assert students == students[..n] + [students[n]];
      assert students[n] !in students[..n];
    }
  }

  lemma CountTwice(students: seq<Record>, i: nat, j: nat)
    requires i < j < |students| && students[i] == students[j]
    ensures multiset(students)[students[i]] >= 2
  {
    assert students == students[..j] + students[j..];
    assert students[..j][i] == students[i] && students[j..][0] == students[j];
    assert students[i] in students[..j] && students[i] in students[j..];
  }

  /** A rearrangement of a list of distinct students is one too. */
  lemma PermutedDistinct(a: seq<Record>, b: seq<Record>)
    requires DistinctStudents(a) && multiset(a) == multiset(b)
    ensures DistinctStudents(b) && forall s | s in b :: s in a
  {
    forall s | s in b
      ensures s in a
    {
      assert s in multiset(b);
    }
    forall i, j | 0 <= i < j < |b|
      ensures b[i].id != b[j].id
    {
      assert b[i] in a && b[j] in a;
      if b[i] == b[j] {
        CountTwice(b, i, j);
        CountOnce(a, b[i]);
        assert false;
      }
    }
  }

  lemma {:induction false} ExpectedDistinct(rows: Rows, clubId: string, weekday: string, students: seq<Record>)
    requires DistinctStudents(students)
    ensures DistinctStudents(ExpectedOf(rows, clubId, weekday, students))
  {
    hide Expected;
    if students != [] {
      var n := |students| - 1;
      var front := ExpectedOf(rows, clubId, weekday, students[..n]);
      ExpectedDistinct(rows, clubId, weekday, students[..n]);
      ExpectedOfMembers(rows, clubId, weekday, students[..n]);
      forall i | 0 <= i < |front|
        ensures front[i].id != students[n].id
      {
        assert front[i] in students[..n];
      }
    }
  }
}
