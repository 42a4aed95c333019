/** The tables, their constraints, and the one statement pair every writer
    uses: an upsert by id followed by a row in sync_change_log. */
module Tables {
  import opened Records

  type Rows = map<Key, Row>

  /** A row of sync_change_log. Its entity_name and record_id columns are KeyOf(record). */
  datatype LogRow = LogRow(changeId: nat, record: Record, at: Time)

  /** The ten tables (in one map), the change log in insertion order, and the next BIGSERIAL value. */
  datatype Core = Core(rows: Rows, log: seq<LogRow>, nextId: nat)

  const EMPTY_CORE := Core(map[], [], 1)

  /** SELECT EXISTS(... WHERE id = $1), soft-deleted rows included. */
  predicate Stored(rows: Rows, entity: EntityName, id: string) {
    Key(entity, id) in rows
  }

  /** RecordExists: the row is there and not soft-deleted. */
  predicate Live(rows: Rows, entity: EntityName, id: string) {
    Key(entity, id) in rows && rows[Key(entity, id)].deletedAt.None?
  }

  function Lookup(rows: Rows, entity: EntityName, id: string): Option<Row> {
    if Key(entity, id) in rows then Some(rows[Key(entity, id)]) else None
  }

  predicate OptionalReference(rows: Rows, entity: EntityName, id: Option<string>) {
    id.Some? ==> Stored(rows, entity, id.value)
  }

  /** The REFERENCES clauses. A soft-deleted row still satisfies them. */
  predicate ForeignKeysHold<D, T>(users: set<string>, rows: Rows, body: Body<D, T>) {
    match body
    case Club(_, _, _, _, _, _, _) => true
    case ClubGroup(clubId, _, _, _) => Stored(rows, Clubs, clubId)
    case ClubSchedule(clubId, _, _) => Stored(rows, Clubs, clubId)
    case BeltRank(_, _, _, _) => true
    case Student(_, _, _, _, _, _, _, clubId, groupId, beltRankId, _, _, _) =>
      && Stored(rows, Clubs, clubId)
      && OptionalReference(rows, ClubGroups, groupId)
      && Stored(rows, BeltRanks, beltRankId)
    case Message(studentId, clubId, _, _, authorUserId, _, aboutSession, aboutRecord, _, _) =>
      && Stored(rows, Students, studentId)
      && Stored(rows, Clubs, clubId)
      && (authorUserId.Some? ==> authorUserId.value in users)
      && OptionalReference(rows, AttendanceSessions, aboutSession)
      && OptionalReference(rows, AttendanceRecords, aboutRecord)
    case Profile(studentId, _) => Stored(rows, Students, studentId)
    case StudentSchedule(studentId, _, _) => Stored(rows, Students, studentId)
    case Session(clubId, _, _, _) => Stored(rows, Clubs, clubId)
    case Attendance(sessionId, studentId, _, _, _) =>
      Stored(rows, AttendanceSessions, sessionId) && Stored(rows, Students, studentId)
  }

  /** Two different rows that a UNIQUE column or a unique index forbids together. */
  predicate Collides(a: Row, b: Row) {
    var live := a.deletedAt.None? && b.deletedAt.None?;
    match (a.body, b.body)
    case (Club(code, _, _, _, _, _, _), Club(code', _, _, _, _, _, _)) =>
      live && code.Some? && code == code'
    case (ClubGroup(club, name, _, _), ClubGroup(club', name', _, _)) =>
      live && club == club' && name == name'
    case (ClubSchedule(club, weekday, _), ClubSchedule(club', weekday', _)) =>
      live && club == club' && weekday == weekday'
    case (BeltRank(_, order, _, _), BeltRank(_, order', _, _)) =>
      live && order == order'
    case (Student(code, _, _, _, _, _, _, _, _, _, _, _, _), Student(code', _, _, _, _, _, _, _, _, _, _, _, _)) =>
      code.Some? && code == code'
    case (Message(_, _, kind, _, _, _, _, about, _, _), Message(_, _, kind', _, _, _, _, about', _, _)) =>
      live && kind == kind' == "attendance_note" && about.Some? && about == about'
    case (Profile(student, _), Profile(student', _)) =>
      student == student'
    case (StudentSchedule(student, weekday, _), StudentSchedule(student', weekday', _)) =>
      live && student == student' && weekday == weekday'
    case (Attendance(session, student, _, _, _), Attendance(session', student', _, _, _)) =>
      live && session == session' && student == student'
    case _ => false
  }

  /** No other row of the table forbids storing `row` under `key`. */
  predicate FitsIndexes(rows: Rows, key: Key, row: Row) {
    forall k | k in rows && k != key && k.entity == key.entity :: !Collides(row, rows[k])
  }

  /** INSERT ... ON CONFLICT (id) DO UPDATE: every column but created_at is replaced. */
  function Put(rows: Rows, key: Key, row: Row): Rows {
    rows[key := if key in rows then row.(createdAt := rows[key].createdAt) else row]
  }

  /** UpsertRecord: the upsert, then the log row; None is a database error. */
  function Write(env: Env, core: Core, rec: Record, now: Time): Option<Core> {
    var row :- ToRow(env, rec);
    if ForeignKeysHold(env.users, core.rows, row.body) && FitsIndexes(core.rows, KeyOf(rec), row) then
      Some(Core(Put(core.rows, KeyOf(rec), row), core.log + [LogRow(core.nextId, rec, now)], core.nextId + 1))
    else
      None
  }

  /** The batch upserts: one Write after another. */
  function WriteAll(env: Env, core: Core, recs: seq<Record>, now: Time): Option<Core> {
    if recs == [] then Some(core)
    else
      var before :- WriteAll(env, core, recs[..|recs| - 1], now);
      Write(env, before, recs[|recs| - 1], now)
  }

  /** A batch fails as soon as one of its prefixes fails. */
  lemma {:induction false} WriteAllPrefix(env: Env, core: Core, recs: seq<Record>, n: nat, now: Time)
    requires n <= |recs|
    requires WriteAll(env, core, recs, now).Some?
    ensures WriteAll(env, core, recs[..n], now).Some?
  {
    if n < |recs| {
      WriteAllPrefix(env, core, recs[..|recs| - 1], n, now);
      assert recs[..|recs| - 1][..n] == recs[..n];
    } else {
      assert recs[..n] == recs;
    }
  }

  /** Writing two batches one after the other is writing their concatenation. */
  lemma {:induction false} WriteAllAppend(env: Env, core: Core, a: seq<Record>, b: seq<Record>, now: Time)
    requires WriteAll(env, core, a, now).Some?
    ensures WriteAll(env, core, a + b, now) == WriteAll(env, WriteAll(env, core, a, now).value, b, now)
  {
    if b == [] {
      assert a + b == a;
    } else {
      var n := |b| - 1;
      WriteAllAppend(env, core, a, b[..n], now);
      assert (a + b)[..|a + b| - 1] == a + b[..n];
    }
  }

  /** A batch is its first record and then the others. */
  lemma WriteAllFirst(env: Env, core: Core, first: Record, rest: seq<Record>, now: Time)
    requires Write(env, core, first, now).Some?
    ensures WriteAll(env, core, [first] + rest, now) == WriteAll(env, Write(env, core, first, now).value, rest, now)
  {
    hide Write;
    assert [first][..0] == [];
    assert WriteAll(env, core, [first], now) == Write(env, core, first, now);
    WriteAllAppend(env, core, [first], rest, now);
  }

  /** What one upsert adds to the log, and the one row it can touch. */
  lemma WriteEffect(env: Env, core: Core, rec: Record, now: Time)
    requires Write(env, core, rec, now).Some?
    ensures var after := Write(env, core, rec, now).value;
      && after.nextId == core.nextId + 1
      && after.log == core.log + [LogRow(core.nextId, rec, now)]
      && after.rows.Keys == core.rows.Keys + {KeyOf(rec)}
      && (forall k | k in core.rows && k != KeyOf(rec) :: after.rows[k] == core.rows[k])
      && HoldsRecord(env, core.rows, after.rows, rec)
  {
    hide ForeignKeysHold, FitsIndexes, EntityOf;
  }

  /** What a batch adds to the log, and which rows it can touch. */
  lemma {:induction false} WriteAllEffect(env: Env, core: Core, recs: seq<Record>, now: Time)
    requires WriteAll(env, core, recs, now).Some?
    ensures var after := WriteAll(env, core, recs, now).value;
      && after.nextId == core.nextId + |recs|
      && |after.log| == |core.log| + |recs|
      && core.log <= after.log
      && (forall i | 0 <= i < |recs| :: after.log[|core.log| + i] == LogRow(core.nextId + i, recs[i], now))
      && core.rows.Keys <= after.rows.Keys
      && (forall k | k in after.rows && (forall i | 0 <= i < |recs| :: KeyOf(recs[i]) != k) ::
            k in core.rows && after.rows[k] == core.rows[k])
  {
    hide Write, HoldsRecord, EntityOf;
    if recs != [] {
      var n := |recs| - 1;
      WriteAllEffect(env, core, recs[..n], now);
      var before := WriteAll(env, core, recs[..n], now).value;
      WriteEffect(env, before, recs[n], now);
      var after := WriteAll(env, core, recs, now).value;
      forall k | k in after.rows && (forall i | 0 <= i < |recs| :: KeyOf(recs[i]) != k)
        ensures k in core.rows && after.rows[k] == core.rows[k]
      {
        assert KeyOf(recs[n]) != k;
        assert forall i | 0 <= i < n :: recs[..n][i] == recs[i];
        assert k in before.rows && after.rows[k] == before.rows[k];
      }
    }
  }

  /** `rec` has been stored over `before`: its row, except that created_at survives from an earlier one. */
  ghost predicate HoldsRecord(env: Env, before: Rows, after: Rows, rec: Record) {
    && ToRow(env, rec).Some?
    && KeyOf(rec) in after
    && after[KeyOf(rec)] == Put(before, KeyOf(rec), ToRow(env, rec).value)[KeyOf(rec)]
  }

  /** A record that no other record of its batch contradicts is left stored. */
  lemma {:induction false} WriteAllRows(env: Env, core: Core, recs: seq<Record>, now: Time, i: nat)
    requires WriteAll(env, core, recs, now).Some? && i < |recs|
    requires forall j | 0 <= j < |recs| && KeyOf(recs[j]) == KeyOf(recs[i]) :: recs[j] == recs[i]
    ensures HoldsRecord(env, core.rows, WriteAll(env, core, recs, now).value.rows, recs[i])
  {
    hide ToRow, Write, EntityOf;
    var n := |recs| - 1;
    var front := recs[..n];
    WriteAllPrefix(env, core, recs, n, now);
    WriteEffect(env, WriteAll(env, core, front, now).value, recs[n], now);
    if j: nat :| j < n && front[j] == recs[i] {
      WriteAllRows(env, core, front, now, j);
      assert KeyOf(recs[n]) == KeyOf(recs[i]) ==> recs[n] == recs[i];
    } else {
      assert i == n;
      WriteAllEffect(env, core, front, now);
      assert forall j | 0 <= j < n :: KeyOf(front[j]) == KeyOf(recs[n]) ==> recs[j] == recs[i];
    }
  }

  /** Records with the same key are the same record. */
  ghost predicate Consistent(recs: seq<Record>) {
    forall i, j | 0 <= i < j < |recs| && KeyOf(recs[i]) == KeyOf(recs[j]) :: recs[i] == recs[j]
  }

  lemma WriteAllHolds(env: Env, core: Core, recs: seq<Record>, now: Time, rec: Record)
    requires WriteAll(env, core, recs, now).Some? && Consistent(recs) && rec in recs
    ensures HoldsRecord(env, core.rows, WriteAll(env, core, recs, now).value.rows, rec)
  {
    hide WriteAll, HoldsRecord, EntityOf;
    var i: nat :| i < |recs| && recs[i] == rec;
    WriteAllRows(env, core, recs, now, i);
  }
}
