/** A small club as a reachable state, to exhibit inputs: a club, a belt rank, a student, a session, the student's
    attendance record and a message about the session; in one version the student has been deleted since. */
module Sample {
  import opened Text
  import opened Records
  import opened Tables
  import opened Lookups
  import opened History

  const CLUB := Key(Clubs, "c")
  const BELT := Key(BeltRanks, "b")
  const STUDENT := Key(Students, "s")
  const SESSION := Key(AttendanceSessions, "x")
  const ATTENDANCE := Key(AttendanceRecords, "r")
  const MESSAGE := Key(StudentMessages, "m")

  function SampleStudent<D, T>(): Body<D, T> {
    Student(None, "An", None, None, None, None, None, "c", None, "b", None, "active", None)
  }

  function SampleClub<D, T>(): Body<D, T> {
    Club(None, "Club", None, None, None, None, true)
  }

  function SampleBelt<D, T>(): Body<D, T> {
    BeltRank("Belt", 1, None, true)
  }

  function SampleSession(at: Time): Columns {
    Session("c", DateOf(at), "draft", None)
  }

  function SampleAttendance<D, T>(): Body<D, T> {
    Attendance("x", "s", "present", None, None)
  }

  function SampleMessage<D, T>(): Body<D, T> {
    Message("s", "c", "manual", "Hi", None, "Coach", Some("x"), None, None, None)
  }

  function LiveRow(at: Time, body: Columns): Row {
    Row(at, at, at, None, body)
  }

  /** The club before its first session. */
  function SampleRoster(at: Time): Rows {
    map[CLUB := LiveRow(at, SampleClub()), BELT := LiveRow(at, SampleBelt()), STUDENT := LiveRow(at, SampleStudent())]
  }

  function SampleRows(at: Time, gone: bool): Rows {
    map[CLUB := LiveRow(at, SampleClub()), BELT := LiveRow(at, SampleBelt()),
        STUDENT := if gone then Row(at, at, at, Some(at), SampleStudent()) else LiveRow(at, SampleStudent()),
        SESSION := LiveRow(at, SampleSession(at)), ATTENDANCE := LiveRow(at, SampleAttendance()),
        MESSAGE := LiveRow(at, SampleMessage())]
  }

  /** One write that the database accepts, as a step of a transaction. */
  lemma SampleWrite(env: Env, start: Core, core: Core, k: Key, row: Row, at: Time) returns (after: Core)
    requires ValidEnv(env) && Evolves(env, start, core, at, true)
    requires EntityOf(row.body) == k.entity && k.id != "" && !row.body.ClubGroup?
    requires row.body.BeltRank? ==> -INT32_MAX - 1 <= row.body.order <= INT32_MAX
    requires row.body.Session? ==> k !in core.rows
    requires ForeignKeysHold(env.users, core.rows, row.body)
    requires forall l | l in core.rows && l != k :: l.entity != k.entity
    requires k in core.rows ==> core.rows[k].createdAt == row.createdAt
    ensures Evolves(env, start, after, at, true) && after.rows == core.rows[k := row]
  {
    hide Evolves, ForeignKeysHold, Collides;
    var rec := FromRow(env, k.id, row);
    ReadBackRoundTrip(env, k.id, row);
    SampleVetted(env, core.rows, k, row, at);
    hide FromRow, ToRow, Vetted, EntityOf;
    EvolvesWrite(env, core, rec, at, true);
    after := Write(env, core, rec, at).value;
    EvolvesTogether(env, start, core, after, at, true);
  }

  lemma SampleVetted(env: Env, rows: Rows, k: Key, row: Row, at: Time)
    requires EntityOf(row.body) == k.entity && k.id != "" && !row.body.ClubGroup?
    requires row.body.Session? ==> k !in rows
    ensures KeyOf(FromRow(env, k.id, row)) == k && Vetted(env, rows, FromRow(env, k.id, row), at, true)
  {
  }

  /** The club, the rank and the student. */
  lemma RosterBuilt(env: Env, at: Time) returns (core: Core)
    requires ValidEnv(env)
    ensures Evolves(env, EMPTY_CORE, core, at, true) && core.rows == SampleRoster(at)
  {
    hide Evolves, ValidEnv;
    EvolvesNothing(env, EMPTY_CORE, at, true);
    core := SampleWrite(env, EMPTY_CORE, EMPTY_CORE, CLUB, LiveRow(at, SampleClub()), at);
    core := SampleWrite(env, EMPTY_CORE, core, BELT, LiveRow(at, SampleBelt()), at);
    core := SampleWrite(env, EMPTY_CORE, core, STUDENT, LiveRow(at, SampleStudent()), at);
  }

  /** Their session with its record and message. */
  lemma SessionBuilt(env: Env, at: Time) returns (core: Core)
    requires ValidEnv(env)
    ensures Evolves(env, EMPTY_CORE, core, at, true) && core.rows == SampleRows(at, false)
  {
    hide Evolves, ValidEnv;
    core := RosterBuilt(env, at);
    core := SampleWrite(env, EMPTY_CORE, core, SESSION, LiveRow(at, SampleSession(at)), at);
    core := SampleWrite(env, EMPTY_CORE, core, ATTENDANCE, LiveRow(at, SampleAttendance()), at);
    core := SampleWrite(env, EMPTY_CORE, core, MESSAGE, LiveRow(at, SampleMessage()), at);
  }

  /** The small club comes about by accepted writes from empty tables. */
  lemma SampleReachable(env: Env, at: Time, gone: bool) returns (core: Core)
    requires ValidEnv(env)
    ensures Reachable(env, core) && Invariant(env, core) && NotAfter(core, at)
    ensures core.rows == SampleRows(at, gone) && Tagged(core.rows)
  {
    hide Evolves, Invariant, NotAfter, ValidEnv, Reachable, Tagged;
    core := SessionBuilt(env, at);
    if gone {
      core := SampleWrite(env, EMPTY_CORE, core, STUDENT, Row(at, at, at, Some(at), SampleStudent()), at);
    }
    OneTransaction(env, core, at);
  }

  /** A single transaction on empty tables gives a reachable state. */
  lemma OneTransaction(env: Env, core: Core, at: Time)
    requires Evolves(env, EMPTY_CORE, core, at, true)
    ensures Reachable(env, core) && Invariant(env, core) && NotAfter(core, at) && Tagged(core.rows)
  {
    var recs :| VettedAll(env, EMPTY_CORE, recs, at, true) && WriteAll(env, EMPTY_CORE, recs, at) == Some(core);
    EmptyInvariant(env, at);
    BatchKeepsInvariant(env, EMPTY_CORE, recs, at, true);
    hide Invariant, NotAfter, WriteAll, Vetted;
    forall i | 0 <= i < |recs|
      ensures VettedAt(env, EMPTY_CORE, recs, at, false, i)
    {
      assert VettedAt(env, EMPTY_CORE, recs, at, true, i);
      Disorderly(env, WriteAll(env, EMPTY_CORE, recs[..i], at).value.rows, recs[i], at);
    }
    assert VettedAll(env, EMPTY_CORE, recs, at, false);
    assert Evolves(env, EMPTY_CORE, core, at, false);
    hide Evolves;
    assert SerialRun(env, [EMPTY_CORE, core], [at], false);
  }

  lemma Disorderly(env: Env, rows: Rows, rec: Record, at: Time)
    requires Vetted(env, rows, rec, at, true)
    ensures Vetted(env, rows, rec, at, false)
  {
  }

  lemma EmptyInvariant(env: Env, at: Time)
    ensures Invariant(env, EMPTY_CORE) && NotAfter(EMPTY_CORE, at)
  {
  }
}
