/** ReplaceStudentSchedule: the records it writes, computed from the rows it finds. */
module ScheduleSpec {
  import opened Records
  import opened Tables

  /** The id the server gives a student's weekday. */
  function DayId(studentId: string, weekday: string): string {
    studentId + ":" + weekday
  }

  /** All schedule rows of a student, soft-deleted ones included. */
  function ScheduleIds(rows: Rows, studentId: string): set<string> {
    set k | k in rows && k.entity == StudentSchedules && rows[k].body.StudentSchedule?
      && rows[k].body.studentId == studentId :: k.id
  }

  /** existingSchedules: listed rows read back under their weekdays, a later row displacing an earlier one. */
  function ByWeekday(env: Env, rows: Rows, order: seq<string>): map<string, Record> {
    if order == [] then map[]
    else
      var n := |order| - 1;
      var front := ByWeekday(env, rows, order[..n]);
      match Lookup(rows, StudentSchedules, order[n])
      case None => front
      case Some(row) => if row.body.StudentSchedule? then front[row.body.weekday := FromRow(env, order[n], row)]
        else front
  }

  function ProfileRecord(env: Env, rows: Rows, studentId: string, mode: string, now: Time): Record {
    var existing := Lookup(rows, StudentScheduleProfiles, studentId);
    var nowText := env.formatTime(now);
    Record(studentId, if existing.Some? then env.formatTime(existing.value.createdAt) else nowText,
           nowText, nowText, "synced", None, Profile(studentId, mode))
  }

  function DayRecord(env: Env, existing: map<string, Record>, studentId: string, weekday: string, now: Time): Record {
    var nowText := env.formatTime(now);
    Record(DayId(studentId, weekday), if weekday in existing then existing[weekday].createdAt else nowText,
           nowText, nowText, "synced", None, StudentSchedule(studentId, weekday, true))
  }

  function DropRecord(env: Env, record: Record, now: Time): Record {
    var nowText := env.formatTime(now);
    record.(updatedAt := nowText, lastModifiedAt := nowText, deletedAt := Some(nowText))
  }

  function DayRecords(env: Env, existing: map<string, Record>, studentId: string, weekdays: seq<string>,
                      now: Time): seq<Record> {
    seq(|weekdays|, i requires 0 <= i < |weekdays| => DayRecord(env, existing, studentId, weekdays[i], now))
  }

  /** The weekdays of a listing that were not requested. */
  function Unrequested(order: seq<string>, requested: seq<string>): seq<string> {
    if order == [] then []
    else
      var n := |order| - 1;
      Unrequested(order[..n], requested) + if order[n] in requested then [] else [order[n]]
  }

  function DropRecords(env: Env, existing: map<string, Record>, dropped: seq<string>, now: Time): seq<Record>
    requires forall w | w in dropped :: w in existing
  {
    seq(|dropped|, i requires 0 <= i < |dropped| => DropRecord(env, existing[dropped[i]], now))
  }

  lemma {:induction false} UnrequestedMembers(order: seq<string>, requested: seq<string>)
    ensures forall w :: w in Unrequested(order, requested) <==> w in order && w !in requested
  {
    if order != [] {
      var n := |order| - 1;
      UnrequestedMembers(order[..n], requested);
      assert order == order[..n] + [order[n]];
    }
  }

  function Existing(env: Env, rows: Rows, studentId: string): map<string, Record> {
    ByWeekday(env, rows, env.listing(ScheduleIds(rows, studentId)))
  }

  /** The weekdays that get a tombstone, in the order the map is visited. */
  function Dropped(env: Env, existing: map<string, Record>, weekdays: seq<string>): (dropped: seq<string>)
    requires ValidEnv(env)
    ensures forall w :: w in dropped <==> w in existing && w !in weekdays
  {
    UnrequestedMembers(env.listing(existing.Keys), weekdays);
    assert Lists(env.listing(existing.Keys), existing.Keys);
    Unrequested(env.listing(existing.Keys), weekdays)
  }

  /** Everything one replacement writes, in order: the profile, the requested weekdays, the dropped ones. */
  function ScheduleRecords(env: Env, rows: Rows, studentId: string, mode: string, weekdays: seq<string>,
                           now: Time): seq<Record>
    requires ValidEnv(env)
  {
    var existing := Existing(env, rows, studentId);
    [ProfileRecord(env, rows, studentId, mode, now)]
      + DayRecords(env, existing, studentId, weekdays, now)
      + DropRecords(env, existing, Dropped(env, existing, weekdays), now)
  }

  function ReplaceSchedule(env: Env, core: Core, studentId: string, mode: string, weekdays: seq<string>,
                           now: Time): Option<Core>
    requires ValidEnv(env)
  {
    WriteAll(env, core, ScheduleRecords(env, core.rows, studentId, mode, weekdays, now), now)
  }
}

module ScheduleProofs {
  import opened Text
  import opened Records
  import opened Tables
  import opened Lookups
  import opened History
  import opened ScheduleSpec

  /** The student's stored rows carry the server's own ids. */
  ghost predicate CanonicalIds(rows: Rows, studentId: string) {
    && (forall k | k in rows && rows[k].body.StudentSchedule? && rows[k].body.studentId == studentId ::
          k == Key(StudentSchedules, DayId(studentId, rows[k].body.weekday)))
    && (forall k | k in rows && rows[k].body.Profile? && rows[k].body.studentId == studentId ::
          k == Key(StudentScheduleProfiles, studentId))
  }

  /** What is stored under the ids about to be written belongs to the student. */
  ghost predicate OwnRows(rows: Rows, studentId: string, weekdays: seq<string>) {
    && (var p := Key(StudentScheduleProfiles, studentId);
        p in rows ==> rows[p].body.Profile? && rows[p].body.studentId == studentId)
    && (forall w | w in weekdays ::
          var k := Key(StudentSchedules, DayId(studentId, w));
          k in rows ==> rows[k].body.StudentSchedule? && rows[k].body.studentId == studentId)
  }

  lemma DayIdInjective(studentId: string, w: string, w': string)
    requires DayId(studentId, w) == DayId(studentId, w')
    ensures w == w'
  {
    assert DayId(studentId, w)[|studentId| + 1..] == w;
    assert DayId(studentId, w')[|studentId| + 1..] == w';
  }

  /** Under canonical ids the map holds, for each weekday with a row, that row. */
  lemma {:induction false} ByWeekdayFinds(env: Env, rows: Rows, studentId: string, order: seq<string>)
    requires Tagged(rows) && CanonicalIds(rows, studentId)
    requires forall id | id in order :: id in ScheduleIds(rows, studentId)
    ensures forall w :: w in ByWeekday(env, rows, order) <==> DayId(studentId, w) in order
    ensures forall w | w in ByWeekday(env, rows, order) ::
      && Key(StudentSchedules, DayId(studentId, w)) in rows
      && ByWeekday(env, rows, order)[w]
           == FromRow(env, DayId(studentId, w), rows[Key(StudentSchedules, DayId(studentId, w))])
  {
    hide FromRow, DayId;
    if order != [] {
      var n := |order| - 1;
      ByWeekdayFinds(env, rows, studentId, order[..n]);
      var id := order[n];
      assert id in order;
      var row := rows[Key(StudentSchedules, id)];
      assert row.body.StudentSchedule? && id == DayId(studentId, row.body.weekday);
      assert order == order[..n] + [id];
      forall w
        ensures w in ByWeekday(env, rows, order) <==> DayId(studentId, w) in order
      {
        if DayId(studentId, w) == id {
          DayIdInjective(studentId, w, row.body.weekday);
        }
      }
    }
  }

  /** Which weekdays the map has: those of the student's stored rows. */
  lemma ExistingFinds(env: Env, rows: Rows, studentId: string)
    requires ValidEnv(env) && Tagged(rows) && CanonicalIds(rows, studentId)
    ensures forall w :: w in Existing(env, rows, studentId) <==> DayId(studentId, w) in ScheduleIds(rows, studentId)
    ensures forall w | w in Existing(env, rows, studentId) ::
      && Key(StudentSchedules, DayId(studentId, w)) in rows
      && Existing(env, rows, studentId)[w]
           == FromRow(env, DayId(studentId, w), rows[Key(StudentSchedules, DayId(studentId, w))])
  {
    hide ByWeekday, FromRow, DayId;
    assert Lists(env.listing(ScheduleIds(rows, studentId)), ScheduleIds(rows, studentId));
    ByWeekdayFinds(env, rows, studentId, env.listing(ScheduleIds(rows, studentId)));
  }

  /** The instant a row under `key` counts as created when it is written now. */
  function Created(rows: Rows, key: Key, now: Time): Time {
    if key in rows then rows[key].createdAt else now
  }

  /** A record is stored as `row`. */
  ghost predicate StoredAs(env: Env, rec: Record, row: Row) {
    ToRow(env, rec) == Some(row)
  }

  lemma ProfileStored(env: Env, rows: Rows, studentId: string, mode: string, now: Time)
    requires ValidEnv(env)
    ensures var key := Key(StudentScheduleProfiles, studentId);
      StoredAs(env, ProfileRecord(env, rows, studentId, mode, now),
               Row(Created(rows, key, now), now, now, None, Profile(studentId, mode)))
  {
    assert env.parseTime(env.formatTime(now)) == Some(now);
    var key := Key(StudentScheduleProfiles, studentId);
    assert env.parseTime(env.formatTime(Created(rows, key, now))) == Some(Created(rows, key, now));
  }

  lemma DayStored(env: Env, rows: Rows, studentId: string, weekday: string, now: Time)
    requires ValidEnv(env) && Tagged(rows) && CanonicalIds(rows, studentId) && OwnRows(rows, studentId, [weekday])
    ensures var key := Key(StudentSchedules, DayId(studentId, weekday));
      StoredAs(env, DayRecord(env, Existing(env, rows, studentId), studentId, weekday, now),
               Row(Created(rows, key, now), now, now, None, StudentSchedule(studentId, weekday, true)))
  {
    hide Existing, CanonicalIds, DayId, Tagged;
    ExistingFinds(env, rows, studentId);
    var key := Key(StudentSchedules, DayId(studentId, weekday));
    assert weekday in [weekday];
    assert env.parseTime(env.formatTime(now)) == Some(now);
    assert env.parseTime(env.formatTime(Created(rows, key, now))) == Some(Created(rows, key, now));
    assert key in rows <==> DayId(studentId, weekday) in ScheduleIds(rows, studentId);
  }

  /** The row a dropped weekday is left as. */
  function DroppedRow(row: Row, now: Time): Row {
    row.(updatedAt := now, lastModifiedAt := now, deletedAt := Some(now))
  }

  lemma DropStored(env: Env, id: string, row: Row, now: Time)
    requires ValidEnv(env) && row.body.StudentSchedule?
    ensures StoredAs(env, DropRecord(env, FromRow(env, id, row), now), DroppedRow(row, now))
  {
    assert env.parseTime(env.formatTime(now)) == Some(now);
    assert env.parseTime(env.formatTime(row.createdAt)) == Some(row.createdAt);
  }

  // ----- the writes succeed -------------------------------------------------------

  /** A record written for this student under its canonical id. */
  ghost predicate ScheduleWrite(env: Env, studentId: string, rec: Record) {
    && ToRow(env, rec).Some?
    && ((rec.body.StudentSchedule? && rec.body.studentId == studentId && rec.id == DayId(studentId, rec.body.weekday))
        || (rec.body.Profile? && rec.body.studentId == studentId && rec.id == studentId))
  }

  lemma ScheduleWriteSucceeds(env: Env, core: Core, studentId: string, rec: Record, now: Time)
    requires Tagged(core.rows) && CanonicalIds(core.rows, studentId) && Stored(core.rows, Students, studentId)
    requires ScheduleWrite(env, studentId, rec)
    ensures Write(env, core, rec, now).Some?
    ensures var rows := Write(env, core, rec, now).value.rows;
      Tagged(rows) && CanonicalIds(rows, studentId) && Stored(rows, Students, studentId)
  {
    hide DayId;
    var row := ToRow(env, rec).value;
    forall k | k in core.rows && k != KeyOf(rec) && k.entity == KeyOf(rec).entity
      ensures !Collides(row, core.rows[k])
    {
      assert EntityOf(core.rows[k].body) == k.entity;
    }
    assert ForeignKeysHold(env.users, core.rows, row.body);
    hide ForeignKeysHold, ToRow;
  }

  lemma {:induction false} ScheduleWritesSucceed(env: Env, core: Core, studentId: string, recs: seq<Record>, now: Time)
    requires Tagged(core.rows) && CanonicalIds(core.rows, studentId) && Stored(core.rows, Students, studentId)
    requires forall rec | rec in recs :: ScheduleWrite(env, studentId, rec)
    ensures WriteAll(env, core, recs, now).Some?
    ensures var rows := WriteAll(env, core, recs, now).value.rows;
      Tagged(rows) && CanonicalIds(rows, studentId) && Stored(rows, Students, studentId)
  {
    hide Tagged, CanonicalIds, Stored, ScheduleWrite, Write;
    if recs != [] {
      var n := |recs| - 1;
      ScheduleWritesSucceed(env, core, studentId, recs[..n], now);
      ScheduleWriteSucceeds(env, WriteAll(env, core, recs[..n], now).value, studentId, recs[n], now);
    }
  }

  /** What each record of a replacement is stored as, and where. */
  ghost predicate Planned(env: Env, rows: Rows, studentId: string, mode: string, weekdays: seq<string>, now: Time,
                          rec: Record) {
    || (rec.id == studentId && rec.body == Profile(studentId, mode) && rec.deletedAt.None?
        && StoredAs(env, rec, Row(Created(rows, Key(StudentScheduleProfiles, studentId), now), now, now, None,
                                  Profile(studentId, mode))))
    || (exists w :: PlannedAt(env, rows, studentId, weekdays, w, now, rec))
  }

  ghost predicate PlannedAt(env: Env, rows: Rows, studentId: string, weekdays: seq<string>, w: string, now: Time,
                            rec: Record) {
    if w in weekdays then PlannedDay(env, rows, studentId, w, now, rec)
      else PlannedDrop(env, rows, studentId, w, now, rec)
  }

  ghost predicate PlannedDay(env: Env, rows: Rows, studentId: string, w: string, now: Time, rec: Record) {
    var key := Key(StudentSchedules, DayId(studentId, w));
    && rec == DayRecord(env, Existing(env, rows, studentId), studentId, w, now)
    && KeyOf(rec) == key
    && StoredAs(env, rec, Row(Created(rows, key, now), now, now, None, StudentSchedule(studentId, w, true)))
  }

  ghost predicate PlannedDrop(env: Env, rows: Rows, studentId: string, w: string, now: Time, rec: Record) {
    var key := Key(StudentSchedules, DayId(studentId, w));
    && key in rows && rows[key].body.StudentSchedule? && rows[key].body.studentId == studentId
    && rows[key].body.weekday == w
    && rec == DropRecord(env, FromRow(env, key.id, rows[key]), now)
    && KeyOf(rec) == key
    && StoredAs(env, rec, DroppedRow(rows[key], now))
  }

  /** The premise of the results below: the student exists and its schedule rows are canonical. */
  ghost predicate Replaceable(env: Env, rows: Rows, studentId: string, weekdays: seq<string>) {
    && ValidEnv(env) && Tagged(rows) && Stored(rows, Students, studentId)
    && CanonicalIds(rows, studentId) && OwnRows(rows, studentId, weekdays)
  }

  lemma DayPlanned(env: Env, rows: Rows, studentId: string, weekdays: seq<string>, now: Time, w: string)
    requires Replaceable(env, rows, studentId, weekdays) && w in weekdays
    ensures PlannedDay(env, rows, studentId, w, now, DayRecord(env, Existing(env, rows, studentId), studentId, w, now))
  {
    hide Existing, DayId, Tagged, StoredAs, CanonicalIds, ValidEnv;
    DayStored(env, rows, studentId, w, now);
  }

  lemma DropPlanned(env: Env, rows: Rows, studentId: string, weekdays: seq<string>, now: Time, w: string)
    requires Replaceable(env, rows, studentId, weekdays) && w in Existing(env, rows, studentId)
    ensures PlannedDrop(env, rows, studentId, w, now, DropRecord(env, Existing(env, rows, studentId)[w], now))
  {
    hide Existing, StoredAs, ValidEnv, OwnRows, DayId;
    ExistingFinds(env, rows, studentId);
    var key := Key(StudentSchedules, DayId(studentId, w));
    assert rows[key].body.StudentSchedule? && rows[key].body.studentId == studentId;
    DayIdInjective(studentId, w, rows[key].body.weekday);
    DropStored(env, key.id, rows[key], now);
  }

  lemma RecordsPlanned(env: Env, rows: Rows, studentId: string, mode: string, weekdays: seq<string>, now: Time)
    requires Replaceable(env, rows, studentId, weekdays)
    ensures forall rec | rec in ScheduleRecords(env, rows, studentId, mode, weekdays, now) ::
      Planned(env, rows, studentId, mode, weekdays, now, rec)
  {
    hide Existing, StoredAs, PlannedDay, PlannedDrop, DayRecord, DropRecord, Tagged, CanonicalIds, OwnRows, Stored;
    var existing := Existing(env, rows, studentId);
    var dropped := Dropped(env, existing, weekdays);
    forall rec | rec in ScheduleRecords(env, rows, studentId, mode, weekdays, now)
      ensures Planned(env, rows, studentId, mode, weekdays, now, rec)
    {
      var days, drops := DayRecords(env, existing, studentId, weekdays, now), DropRecords(env, existing, dropped, now);
      if rec in days {
        var i :| 0 <= i < |days| && days[i] == rec;
        DayPlanned(env, rows, studentId, weekdays, now, weekdays[i]);
        assert PlannedAt(env, rows, studentId, weekdays, weekdays[i], now, rec);
      } else if rec in drops {
        var i :| 0 <= i < |drops| && drops[i] == rec;
        assert dropped[i] in dropped;
        DropPlanned(env, rows, studentId, weekdays, now, dropped[i]);
        assert PlannedAt(env, rows, studentId, weekdays, dropped[i], now, rec);
      } else {
        assert rec == ProfileRecord(env, rows, studentId, mode, now);
        ProfileStored(env, rows, studentId, mode, now);
      }
    }
  }

  lemma PlannedIsWrite(env: Env, rows: Rows, studentId: string, mode: string, weekdays: seq<string>, now: Time,
                       rec: Record)
    requires Planned(env, rows, studentId, mode, weekdays, now, rec)
    ensures ScheduleWrite(env, studentId, rec)
  {
    hide ToRow, Existing, DayId;
  }

  /** Planned records with the same key are the same record. */
  lemma PlannedOnce(env: Env, rows: Rows, studentId: string, mode: string, weekdays: seq<string>, now: Time, a: Record,
                    b: Record)
    requires Planned(env, rows, studentId, mode, weekdays, now, a)
    requires Planned(env, rows, studentId, mode, weekdays, now, b)
    requires KeyOf(a) == KeyOf(b) && (a.body.Profile? ==> a == b)
    ensures a == b
  {
    hide StoredAs, Existing, DayId, DayRecord, DropRecord, FromRow;
    if !a.body.Profile? {
      var w :| PlannedAt(env, rows, studentId, weekdays, w, now, a);
      var w' :| PlannedAt(env, rows, studentId, weekdays, w', now, b);
      DayIdInjective(studentId, w, w');
    }
  }

  // ----- the result ---------------------------------------------------------------

  /** The tables after a replacement: the profile and each requested weekday are live with their creation time kept,
      every other stored weekday of the student is deleted, and no other row has changed. */
  ghost predicate Replaced(before: Rows, after: Rows, studentId: string, mode: string, weekdays: seq<string>,
                           now: Time) {
    var profile := Key(StudentScheduleProfiles, studentId);
    && profile in after
    && after[profile] == Row(Created(before, profile, now), now, now, None, Profile(studentId, mode))
    && (forall w | w in weekdays ::
          var k := Key(StudentSchedules, DayId(studentId, w));
          k in after && after[k] == Row(Created(before, k, now), now, now, None, StudentSchedule(studentId, w, true)))
    && (forall id | id in ScheduleIds(before, studentId) ::
          var k := Key(StudentSchedules, id);
          k in after && (before[k].body.weekday !in weekdays ==> after[k] == DroppedRow(before[k], now)))
    && (forall k | k !in Affected(before, studentId, weekdays) ::
          (k in before <==> k in after) && (k in before ==> after[k] == before[k]))
  }

  /** The keys a replacement writes. */
  ghost function Affected(rows: Rows, studentId: string, weekdays: seq<string>): set<Key> {
    {Key(StudentScheduleProfiles, studentId)}
      + (set w | w in weekdays :: Key(StudentSchedules, DayId(studentId, w)))
      + (set id | id in ScheduleIds(rows, studentId) :: Key(StudentSchedules, id))
  }

  lemma PlannedIsAffected(env: Env, rows: Rows, studentId: string, mode: string, weekdays: seq<string>, now: Time,
                          rec: Record)
    requires Planned(env, rows, studentId, mode, weekdays, now, rec)
    ensures KeyOf(rec) in Affected(rows, studentId, weekdays)
  {
    hide StoredAs, Existing, DayId, DayRecord, DropRecord, FromRow;
    if !rec.body.Profile? {
      var w :| PlannedAt(env, rows, studentId, weekdays, w, now, rec);
      assert KeyOf(rec) == Key(StudentSchedules, DayId(studentId, w));
    }
  }

  lemma RecordsConsistent(env: Env, rows: Rows, studentId: string, mode: string, weekdays: seq<string>, now: Time)
    requires Replaceable(env, rows, studentId, weekdays)
    ensures Consistent(ScheduleRecords(env, rows, studentId, mode, weekdays, now))
  {
    var recs := ScheduleRecords(env, rows, studentId, mode, weekdays, now);
    RecordsPlanned(env, rows, studentId, mode, weekdays, now);
    OneProfile(env, rows, studentId, mode, weekdays, now);
    hide ScheduleRecords, Planned, Replaceable, EntityOf, KeyOf;
    forall i, j | 0 <= i < j < |recs| && KeyOf(recs[i]) == KeyOf(recs[j])
      ensures recs[i] == recs[j]
    {
      ProfileKey(recs[i], recs[j]);
      assert recs[i] in recs && recs[j] in recs;
      PlannedOnce(env, rows, studentId, mode, weekdays, now, recs[i], recs[j]);
    }
  }

  lemma ProfileKey(a: Record, b: Record)
    requires KeyOf(a) == KeyOf(b)
    ensures a.body.Profile? ==> EntityOf(b.body) == StudentScheduleProfiles
  {
  }

  lemma OneProfile(env: Env, rows: Rows, studentId: string, mode: string, weekdays: seq<string>, now: Time)
    requires Replaceable(env, rows, studentId, weekdays)
    ensures var recs := ScheduleRecords(env, rows, studentId, mode, weekdays, now);
      ProfileRecord(env, rows, studentId, mode, now) in recs
      && forall i, j | 0 <= i < j < |recs| ::
           !(recs[i].body.Profile? && EntityOf(recs[j].body) == StudentScheduleProfiles)
  {
    ExistingAreSchedules(env, rows, studentId);
    hide Existing, Replaceable, DayId, ProfileRecord;
    var recs := ScheduleRecords(env, rows, studentId, mode, weekdays, now);
    assert recs[0] == ProfileRecord(env, rows, studentId, mode, now);
    forall j | 0 < j < |recs|
      ensures recs[j].body.StudentSchedule?
    {
      RecordIsSchedule(env, rows, studentId, mode, weekdays, now, j);
    }
    hide ScheduleRecords;
  }

  lemma ExistingAreSchedules(env: Env, rows: Rows, studentId: string)
    requires ValidEnv(env) && Tagged(rows) && CanonicalIds(rows, studentId)
    ensures forall w | w in Existing(env, rows, studentId) :: Existing(env, rows, studentId)[w].body.StudentSchedule?
  {
    hide Existing, DayId, CanonicalIds;
    ExistingFinds(env, rows, studentId);
  }

  lemma RecordIsSchedule(env: Env, rows: Rows, studentId: string, mode: string, weekdays: seq<string>, now: Time,
                         j: nat)
    requires ValidEnv(env) && 0 < j < |ScheduleRecords(env, rows, studentId, mode, weekdays, now)|
    requires forall w | w in Existing(env, rows, studentId) :: Existing(env, rows, studentId)[w].body.StudentSchedule?
    ensures ScheduleRecords(env, rows, studentId, mode, weekdays, now)[j].body.StudentSchedule?
  {
    hide Existing, ProfileRecord, ValidEnv;
    var existing := Existing(env, rows, studentId);
    var dropped := Dropped(env, existing, weekdays);
    var days := DayRecords(env, existing, studentId, weekdays, now);
    var drops := DropRecords(env, existing, dropped, now);
    var rec := ScheduleRecords(env, rows, studentId, mode, weekdays, now)[j];
    if j > |weekdays| {
      assert dropped[j - 1 - |weekdays|] in dropped;
      assert rec == drops[j - 1 - |weekdays|];
    } else {
      assert rec == days[j - 1];
    }
  }

  /** The records that are written for a requested and for a dropped weekday. */
  lemma DayIncluded(env: Env, rows: Rows, studentId: string, mode: string, weekdays: seq<string>, now: Time, w: string)
    requires ValidEnv(env)
    ensures var recs, existing :=
      ScheduleRecords(env, rows, studentId, mode, weekdays, now), Existing(env, rows, studentId);
      && (w in weekdays ==> DayRecord(env, existing, studentId, w, now) in recs)
      && (w in existing && w !in weekdays ==> DropRecord(env, existing[w], now) in recs)
  {
    hide Existing, ProfileRecord, DayRecord, DropRecord;
    var recs, existing := ScheduleRecords(env, rows, studentId, mode, weekdays, now), Existing(env, rows, studentId);
    var dropped := Dropped(env, existing, weekdays);
    if w in weekdays {
      var i: nat :| i < |weekdays| && weekdays[i] == w;
      assert recs[1 + i] == DayRecord(env, existing, studentId, w, now);
    } else if w in existing {
      assert w in dropped;
      var i: nat :| i < |dropped| && dropped[i] == w;
      assert recs[1 + |weekdays| + i] == DropRecord(env, existing[w], now);
    }
  }

  lemma ReplacementSucceeds(env: Env, core: Core, studentId: string, mode: string, weekdays: seq<string>, now: Time)
    requires Replaceable(env, core.rows, studentId, weekdays)
    ensures var recs := ScheduleRecords(env, core.rows, studentId, mode, weekdays, now);
      WriteAll(env, core, recs, now).Some? && CanonicalIds(WriteAll(env, core, recs, now).value.rows, studentId)
  {
    var recs := ScheduleRecords(env, core.rows, studentId, mode, weekdays, now);
    RecordsPlanned(env, core.rows, studentId, mode, weekdays, now);
    hide ScheduleRecords, Planned, ScheduleWrite, Tagged, CanonicalIds, OwnRows, WriteAll;
    forall rec | rec in recs
      ensures ScheduleWrite(env, studentId, rec)
    {
      PlannedIsWrite(env, core.rows, studentId, mode, weekdays, now, rec);
    }
    ScheduleWritesSucceed(env, core, studentId, recs, now);
  }

  lemma OthersUntouched(env: Env, core: Core, studentId: string, mode: string, weekdays: seq<string>, now: Time, k: Key)
    requires Replaceable(env, core.rows, studentId, weekdays)
    requires ReplaceSchedule(env, core, studentId, mode, weekdays, now).Some?
    requires k !in Affected(core.rows, studentId, weekdays)
    ensures var after := ReplaceSchedule(env, core, studentId, mode, weekdays, now).value.rows;
      (k in core.rows <==> k in after) && (k in core.rows ==> after[k] == core.rows[k])
  {
    var recs := ScheduleRecords(env, core.rows, studentId, mode, weekdays, now);
    RecordsPlanned(env, core.rows, studentId, mode, weekdays, now);
    WriteAllEffect(env, core, recs, now);
    hide ScheduleRecords, Planned, Replaceable, WriteAll, Affected;
    forall i | 0 <= i < |recs|
      ensures KeyOf(recs[i]) != k
    {
      assert recs[i] in recs;
      PlannedIsAffected(env, core.rows, studentId, mode, weekdays, now, recs[i]);
    }
  }

  lemma HeldRow(env: Env, before: Rows, after: Rows, rec: Record, key: Key, row: Row)
    requires HoldsRecord(env, before, after, rec) && KeyOf(rec) == key && StoredAs(env, rec, row)
    requires key in before ==> row.createdAt == before[key].createdAt
    ensures key in after && after[key] == row
  {
    hide ToRow;
  }

  /** What became of the student's profile row. */
  lemma ProfileReplaced(env: Env, core: Core, studentId: string, mode: string, weekdays: seq<string>, now: Time)
    requires Replaceable(env, core.rows, studentId, weekdays)
    requires ReplaceSchedule(env, core, studentId, mode, weekdays, now).Some?
    ensures var after := ReplaceSchedule(env, core, studentId, mode, weekdays, now).value.rows;
      var key := Key(StudentScheduleProfiles, studentId);
      key in after && after[key] == Row(Created(core.rows, key, now), now, now, None, Profile(studentId, mode))
  {
    hide ScheduleRecords, WriteAll, HoldsRecord, Tagged, CanonicalIds, OwnRows, ValidEnv, Consistent;
    var key := Key(StudentScheduleProfiles, studentId);
    var rec := ProfileRecord(env, core.rows, studentId, mode, now);
    var after := ReplaceSchedule(env, core, studentId, mode, weekdays, now).value.rows;
    RecordsConsistent(env, core.rows, studentId, mode, weekdays, now);
    OneProfile(env, core.rows, studentId, mode, weekdays, now);
    ProfileStored(env, core.rows, studentId, mode, now);
    WriteAllHolds(env, core, ScheduleRecords(env, core.rows, studentId, mode, weekdays, now), now, rec);
    assert KeyOf(rec) == key;
    hide StoredAs, ProfileRecord, Replaceable;
    HeldRow(env, core.rows, after, rec, key,
            Row(Created(core.rows, key, now), now, now, None, Profile(studentId, mode)));
  }

  /** What became of a requested weekday, and of a stored one that was not requested. */
  lemma DayReplaced(env: Env, core: Core, studentId: string, mode: string, weekdays: seq<string>, now: Time, w: string)
    requires Replaceable(env, core.rows, studentId, weekdays)
    requires ReplaceSchedule(env, core, studentId, mode, weekdays, now).Some?
    ensures var after := ReplaceSchedule(env, core, studentId, mode, weekdays, now).value.rows;
      var k := Key(StudentSchedules, DayId(studentId, w));
      && (w in weekdays ==> k in after && after[k] == Row(Created(core.rows, k, now), now, now, None,
                                                          StudentSchedule(studentId, w, true)))
      && (w !in weekdays && w in Existing(env, core.rows, studentId) ==>
            k in core.rows && k in after && after[k] == DroppedRow(core.rows[k], now))
  {
    var rows := core.rows;
    var k := Key(StudentSchedules, DayId(studentId, w));
    var recs, existing := ScheduleRecords(env, rows, studentId, mode, weekdays, now), Existing(env, rows, studentId);
    var after := ReplaceSchedule(env, core, studentId, mode, weekdays, now).value.rows;
    RecordsConsistent(env, rows, studentId, mode, weekdays, now);
    DayIncluded(env, rows, studentId, mode, weekdays, now, w);
    hide ScheduleRecords, WriteAll, StoredAs, HoldsRecord, Replaceable, Existing, DayRecord, DropRecord, DayId;
    if w in weekdays {
      DayPlanned(env, rows, studentId, weekdays, now, w);
      var rec := DayRecord(env, existing, studentId, w, now);
      WriteAllHolds(env, core, recs, now, rec);
      HeldRow(env, rows, after, rec, k,
              Row(Created(rows, k, now), now, now, None, StudentSchedule(studentId, w, true)));
    } else if w in existing {
      DropPlanned(env, rows, studentId, weekdays, now, w);
      var rec := DropRecord(env, existing[w], now);
      WriteAllHolds(env, core, recs, now, rec);
      HeldRow(env, rows, after, rec, k, DroppedRow(rows[k], now));
    }
  }

  /** Schedule replacement: it goes through, and leaves the tables as Replaced says and the student's ids canonical. */
  lemma ScheduleReplaced(env: Env, core: Core, studentId: string, mode: string, weekdays: seq<string>, now: Time)
    requires Replaceable(env, core.rows, studentId, weekdays)
    ensures ReplaceSchedule(env, core, studentId, mode, weekdays, now).Some?
    ensures var after := ReplaceSchedule(env, core, studentId, mode, weekdays, now).value.rows;
      && Replaced(core.rows, after, studentId, mode, weekdays, now)
      && CanonicalIds(after, studentId)
  {
    ReplacementSucceeds(env, core, studentId, mode, weekdays, now);
    var rows, after := core.rows, ReplaceSchedule(env, core, studentId, mode, weekdays, now).value.rows;
    ProfileReplaced(env, core, studentId, mode, weekdays, now);
    hide ScheduleRecords, WriteAll, Affected, DayId, DroppedRow, OwnRows, Tagged;
    forall w | w in weekdays
      ensures var k := Key(StudentSchedules, DayId(studentId, w));
        k in after && after[k] == Row(Created(rows, k, now), now, now, None, StudentSchedule(studentId, w, true))
    {
      DayReplaced(env, core, studentId, mode, weekdays, now, w);
    }
    forall id | id in ScheduleIds(rows, studentId)
      ensures var k := Key(StudentSchedules, id);
        k in after && (rows[k].body.weekday !in weekdays ==> after[k] == DroppedRow(rows[k], now))
    {
      ExistingFinds(env, rows, studentId);
      DayReplaced(env, core, studentId, mode, weekdays, now, rows[Key(StudentSchedules, id)].body.weekday);
    }
    forall k | k !in Affected(rows, studentId, weekdays)
      ensures (k in rows <==> k in after) && (k in rows ==> after[k] == rows[k])
    {
      OthersUntouched(env, core, studentId, mode, weekdays, now, k);
    }
    hide CanonicalIds, ReplaceSchedule, ScheduleIds;
  }

  /** The weekdays a student has live. */
  ghost function LiveDays(rows: Rows, studentId: string): set<string> {
    set k | k in rows && rows[k].deletedAt.None? && rows[k].body.StudentSchedule?
      && rows[k].body.studentId == studentId :: rows[k].body.weekday
  }

  /** After a replacement the live weekdays are exactly the requested ones. */
  lemma LiveDaysAreRequested(env: Env, core: Core, studentId: string, mode: string, weekdays: seq<string>, now: Time)
    requires Replaceable(env, core.rows, studentId, weekdays)
    ensures ReplaceSchedule(env, core, studentId, mode, weekdays, now).Some?
    ensures LiveDays(ReplaceSchedule(env, core, studentId, mode, weekdays, now).value.rows, studentId)
      == set w | w in weekdays
  {
    ScheduleReplaced(env, core, studentId, mode, weekdays, now);
    var before, after := core.rows, ReplaceSchedule(env, core, studentId, mode, weekdays, now).value.rows;
    hide DayId, ReplaceSchedule, OwnRows, Tagged, CanonicalIds, Affected;
    forall w | w in weekdays
      ensures w in LiveDays(after, studentId)
    {
      assert after[Key(StudentSchedules, DayId(studentId, w))].body.weekday == w;
    }
    hide Replaced;
    forall k | k in after && after[k].deletedAt.None? && after[k].body.StudentSchedule?
      && after[k].body.studentId == studentId
      ensures after[k].body.weekday in weekdays
    {
      LiveDayRequested(before, after, studentId, mode, weekdays, now, k);
    }
  }

  lemma LiveDayRequested(before: Rows, after: Rows, studentId: string, mode: string, weekdays: seq<string>, now: Time,
                         k: Key)
    requires CanonicalIds(before, studentId) && Replaced(before, after, studentId, mode, weekdays, now)
    requires k in after && after[k].deletedAt.None? && after[k].body.StudentSchedule?
    requires after[k].body.studentId == studentId
    ensures after[k].body.weekday in weekdays
  {
    hide DayId;
    if k in Affected(before, studentId, weekdays) {
      if w :| w in weekdays && k == Key(StudentSchedules, DayId(studentId, w)) {
        assert after[k].body.weekday == w;
      }
    }
  }

  ghost predicate Distinct(s: seq<string>) {
    forall i, j | 0 <= i < j < |s| :: s[i] != s[j]
  }

  lemma {:induction false} UnrequestedDistinct(order: seq<string>, requested: seq<string>)
    requires Distinct(order)
    ensures Distinct(Unrequested(order, requested))
  {
    if order != [] {
      var n := |order| - 1;
      UnrequestedDistinct(order[..n], requested);
      UnrequestedMembers(order[..n], requested);
      var front := Unrequested(order[..n], requested);
      if order[n] !in requested {
        assert order[n] !in order[..n];
        assert order[n] !in front;
        assert Unrequested(order, requested) == front + [order[n]];
        assert forall i | 0 <= i < |front| :: front[i] in front;
      } else {
        assert Unrequested(order, requested) == front;
      }
    }
  }

  /** The payloads a call appended to the log. */
  ghost function Appended(before: seq<LogRow>, after: seq<LogRow>): seq<Record>
    requires |before| <= |after|
  {
    seq(|after| - |before|, i requires 0 <= i < |after| - |before| => after[|before| + i].record)
  }

  /** The change log of a replacement: the profile, the requested weekdays in order, and a tombstone for each weekday
      that was stored and is not requested, once. */
  lemma ReplacementLogged(env: Env, core: Core, studentId: string, mode: string, weekdays: seq<string>, now: Time)
    requires Replaceable(env, core.rows, studentId, weekdays)
    ensures ReplaceSchedule(env, core, studentId, mode, weekdays, now).Some?
    ensures var after := ReplaceSchedule(env, core, studentId, mode, weekdays, now).value;
      var existing := Existing(env, core.rows, studentId);
      var dropped := Dropped(env, existing, weekdays);
      var days, drops := DayRecords(env, existing, studentId, weekdays, now), DropRecords(env, existing, dropped, now);
      && core.log <= after.log
      && Appended(core.log, after.log) == [ProfileRecord(env, core.rows, studentId, mode, now)] + days + drops
      && (forall i | 0 <= i < |weekdays| ::
            KeyOf(days[i]) == Key(StudentSchedules, DayId(studentId, weekdays[i])) && days[i].deletedAt.None?)
      && (forall i | 0 <= i < |dropped| ::
            KeyOf(drops[i]) == Key(StudentSchedules, DayId(studentId, dropped[i]))
              && drops[i].deletedAt == Some(env.formatTime(now)))
      && (forall w :: w in dropped <==> w !in weekdays && DayId(studentId, w) in ScheduleIds(core.rows, studentId))
      && Distinct(dropped)
  {
    ReplacementSucceeds(env, core, studentId, mode, weekdays, now);
    DropsOnce(env, core.rows, studentId, weekdays);
    DropsKeyed(env, core.rows, studentId, weekdays, now);
    DaysKeyed(env, Existing(env, core.rows, studentId), studentId, weekdays, now);
    BatchAppended(env, core, ScheduleRecords(env, core.rows, studentId, mode, weekdays, now), now);
    hide WriteAll, Existing, DayId, CanonicalIds, OwnRows, Tagged, ValidEnv, ScheduleIds, Dropped, DropRecord, EntityOf,
      ProfileRecord, Unrequested, Appended, DayRecords, DropRecords;
  }

  lemma BatchAppended(env: Env, core: Core, recs: seq<Record>, now: Time)
    requires WriteAll(env, core, recs, now).Some?
    ensures var after := WriteAll(env, core, recs, now).value;
      core.log <= after.log && Appended(core.log, after.log) == recs
  {
    hide WriteAll;
    WriteAllEffect(env, core, recs, now);
  }

  lemma DaysKeyed(env: Env, existing: map<string, Record>, studentId: string, weekdays: seq<string>, now: Time)
    ensures var days := DayRecords(env, existing, studentId, weekdays, now);
      forall i | 0 <= i < |weekdays| ::
        KeyOf(days[i]) == Key(StudentSchedules, DayId(studentId, weekdays[i])) && days[i].deletedAt.None?
  {
  }

  lemma DropsOnce(env: Env, rows: Rows, studentId: string, weekdays: seq<string>)
    requires Replaceable(env, rows, studentId, weekdays)
    ensures var dropped := Dropped(env, Existing(env, rows, studentId), weekdays);
      && (forall w :: w in dropped <==> w !in weekdays && DayId(studentId, w) in ScheduleIds(rows, studentId))
      && Distinct(dropped)
  {
    hide Existing, DayId, CanonicalIds, OwnRows, Tagged, Unrequested, ValidEnv;
    var existing := Existing(env, rows, studentId);
    ExistingFinds(env, rows, studentId);
    ListingDistinct(env, existing.Keys);
    UnrequestedDistinct(env.listing(existing.Keys), weekdays);
  }

  lemma ListingDistinct(env: Env, xs: set<string>)
    requires ValidEnv(env)
    ensures Distinct(env.listing(xs))
  {
    assert Lists(env.listing(xs), xs);
  }

  lemma DropsKeyed(env: Env, rows: Rows, studentId: string, weekdays: seq<string>, now: Time)
    requires Replaceable(env, rows, studentId, weekdays)
    ensures var existing := Existing(env, rows, studentId);
      var dropped := Dropped(env, existing, weekdays);
      var drops := DropRecords(env, existing, dropped, now);
      forall i | 0 <= i < |dropped| ::
        KeyOf(drops[i]) == Key(StudentSchedules, DayId(studentId, dropped[i]))
          && drops[i].deletedAt == Some(env.formatTime(now))
  {
    hide Existing, DayId, Tagged, CanonicalIds, OwnRows, EntityOf, StoredAs, FromRow;
    var existing := Existing(env, rows, studentId);
    var dropped := Dropped(env, existing, weekdays);
    forall i | 0 <= i < |dropped|
      ensures KeyOf(DropRecord(env, existing[dropped[i]], now)) == Key(StudentSchedules, DayId(studentId, dropped[i]))
    {
      assert dropped[i] in dropped;
      DropPlanned(env, rows, studentId, weekdays, now, dropped[i]);
    }
  }

  /** Whatever the ids, a replacement that goes through is a transaction of vetted writes. */
  lemma ReplacementEvolves(env: Env, core: Core, studentId: string, mode: string, weekdays: seq<string>, now: Time,
                           orderly: bool)
    requires ValidEnv(env) && ReplaceSchedule(env, core, studentId, mode, weekdays, now).Some?
    ensures Evolves(env, core, ReplaceSchedule(env, core, studentId, mode, weekdays, now).value, now, orderly)
  {
    var recs := ScheduleRecords(env, core.rows, studentId, mode, weekdays, now);
    RecordsAreSchedules(env, core.rows, studentId, mode, weekdays, now);
    hide ScheduleRecords, WriteAll, Evolves;
    forall i | 0 <= i < |recs|
      ensures VettedAt(env, core, recs, now, orderly, i)
    {
      WriteAllPrefix(env, core, recs, i, now);
    }
    EvolvesBatch(env, core, recs, now, orderly);
  }

  lemma RecordsAreSchedules(env: Env, rows: Rows, studentId: string, mode: string, weekdays: seq<string>, now: Time)
    requires ValidEnv(env)
    ensures forall rec | rec in ScheduleRecords(env, rows, studentId, mode, weekdays, now) ::
      rec.body.Profile? || rec.body.StudentSchedule?
  {
    var order := env.listing(ScheduleIds(rows, studentId));
    ByWeekdaySchedules(env, rows, order);
    hide ByWeekday, ScheduleIds;
    var existing := Existing(env, rows, studentId);
    var recs := ScheduleRecords(env, rows, studentId, mode, weekdays, now);
    assert recs[0].body.Profile?;
    forall j | 0 < j < |recs|
      ensures recs[j].body.StudentSchedule?
    {
      RecordIsSchedule(env, rows, studentId, mode, weekdays, now, j);
    }
    hide ScheduleRecords;
  }

  lemma {:induction false} ByWeekdaySchedules(env: Env, rows: Rows, order: seq<string>)
    ensures forall w | w in ByWeekday(env, rows, order) :: ByWeekday(env, rows, order)[w].body.StudentSchedule?
  {
    if order != [] {
      ByWeekdaySchedules(env, rows, order[..|order| - 1]);
    }
  }

  // ----- where the premise comes from -----------------------------------------------

  /** All stored schedules and profiles carry the server's own ids. */
  ghost predicate AllCanonical(rows: Rows) {
    forall k | k in rows :: CanonicalAt(k, rows[k].body)
  }

  /** A canonical id determines both its parts. */
  lemma DayIdSplits(s: string, w: string, s': string, w': string)
    requires DayId(s, w) == DayId(s', w') && ':' !in w && ':' !in w'
    ensures s == s' && w == w'
  {
    var id := DayId(s, w);
    assert id[|s|] == ':' && id[|s'|] == ':';
    assert forall i | |s| < i < |id| :: id[i] == w[i - |s| - 1];
    assert forall i | |s'| < i < |id| :: DayId(s', w')[i] == w'[i - |s'| - 1];
    assert |s| == |s'|;
    assert id[..|s|] == s && DayId(s', w')[..|s|] == s';
    DayIdInjective(s, w, w');
  }

  ghost predicate CanonicalAt(k: Key, body: Columns) {
    match body
    case StudentSchedule(student, weekday, _) => ':' !in weekday && k == Key(StudentSchedules, DayId(student, weekday))
    case Profile(student, _) => k == Key(StudentScheduleProfiles, student)
    case _ => true
  }

  /** So if all ids are canonical every student is replaceable, and a replacement keeps all ids canonical. */
  lemma CanonicalIdsStay(env: Env, core: Core, studentId: string, mode: string, weekdays: seq<string>, now: Time)
    requires ValidEnv(env) && Tagged(core.rows) && AllCanonical(core.rows) && Stored(core.rows, Students, studentId)
    requires forall w | w in weekdays :: ':' !in w
    ensures Replaceable(env, core.rows, studentId, weekdays)
    ensures ReplaceSchedule(env, core, studentId, mode, weekdays, now).Some?
    ensures AllCanonical(ReplaceSchedule(env, core, studentId, mode, weekdays, now).value.rows)
  {
    AllAreReplaceable(env, core.rows, studentId, weekdays);
    ScheduleReplaced(env, core, studentId, mode, weekdays, now);
    var after := ReplaceSchedule(env, core, studentId, mode, weekdays, now).value.rows;
    hide DayId, ReplaceSchedule, Replaceable, Tagged, CanonicalIds, Replaced, CanonicalAt;
    forall k | k in after
      ensures CanonicalAt(k, after[k].body)
    {
      ReplacedIsCanonical(core.rows, after, studentId, mode, weekdays, now, k);
    }
  }

  lemma ReplacedIsCanonical(before: Rows, after: Rows, studentId: string, mode: string, weekdays: seq<string>,
                            now: Time, k: Key)
    requires AllCanonical(before) && Replaced(before, after, studentId, mode, weekdays, now) && k in after
    requires forall w | w in weekdays :: ':' !in w
    ensures CanonicalAt(k, after[k].body)
  {
    hide DayId;
    if k in before {
      assert CanonicalAt(k, before[k].body);
    }
    if w :| w in weekdays && k == Key(StudentSchedules, DayId(studentId, w)) {
      assert after[k].body == StudentSchedule(studentId, w, true);
    } else if k.entity == StudentSchedules && k.id in ScheduleIds(before, studentId) {
      assert k == Key(StudentSchedules, DayId(studentId, before[k].body.weekday));
      assert before[k].body.weekday !in weekdays;
    }
  }

  lemma AllAreReplaceable(env: Env, rows: Rows, studentId: string, weekdays: seq<string>)
    requires ValidEnv(env) && Tagged(rows) && AllCanonical(rows) && Stored(rows, Students, studentId)
    requires forall w | w in weekdays :: ':' !in w
    ensures Replaceable(env, rows, studentId, weekdays)
  {
    hide DayId;
    forall w | w in weekdays && Key(StudentSchedules, DayId(studentId, w)) in rows
      ensures var row := rows[Key(StudentSchedules, DayId(studentId, w))];
        row.body.StudentSchedule? && row.body.studentId == studentId
    {
      var row := rows[Key(StudentSchedules, DayId(studentId, w))];
      assert EntityOf(row.body) == StudentSchedules;
      DayIdSplits(studentId, w, row.body.studentId, row.body.weekday);
    }
    var p := Key(StudentScheduleProfiles, studentId);
    if p in rows {
      assert EntityOf(rows[p].body) == StudentScheduleProfiles;
    }
  }

  /** Without canonical ids the replacement can leave a weekday live that was not requested: a deleted row read later
      hides the live one of the same weekday. */
  lemma HiddenDaySurvives(env: Env, core: Core, at: Time, now: Time)
    requires ValidEnv(env) && Stored(core.rows, Students, "s") && env.listing({"x", "s:mon"}) == ["x", "s:mon"]
    requires Key(StudentScheduleProfiles, "s") !in core.rows
    requires forall k | k in core.rows :: !core.rows[k].body.Profile?
    requires ScheduleIds(core.rows, "s") == {"x", "s:mon"}
    requires core.rows[Key(StudentSchedules, "x")] == Row(at, at, at, None, StudentSchedule("s", "mon", true))
    requires core.rows[Key(StudentSchedules, "s:mon")] == Row(at, at, at, Some(at), StudentSchedule("s", "mon", true))
    ensures var result := ReplaceSchedule(env, core, "s", "inherit", [], now);
      result.Some? && "mon" in LiveDays(result.value.rows, "s")
  {
    HiddenDay(env, core, at, now);
    var rows := core.rows;
    var x, mon := Key(StudentSchedules, "x"), Key(StudentSchedules, "s:mon");
    var recs := ScheduleRecords(env, rows, "s", "inherit", [], now);
    assert recs == [recs[0], recs[1]];
    ProfileStored(env, rows, "s", "inherit", now);
    DropStored(env, "s:mon", rows[mon], now);
    hide ScheduleRecords, ProfileRecord, DropRecord, ValidEnv;
    assert recs[..1] == [recs[0]] && recs[..1][..0] == [];
    var one := Write(env, core, recs[0], now);
    assert WriteAll(env, core, recs[..1], now) == one;
    var two := Write(env, one.value, recs[1], now);
    assert WriteAll(env, core, recs, now) == two;
    hide ToRow, WriteAll;
    assert two.value.rows[x] == rows[x];
  }

  lemma HiddenDay(env: Env, core: Core, at: Time, now: Time)
    requires ValidEnv(env) && env.listing({"x", "s:mon"}) == ["x", "s:mon"]
    requires ScheduleIds(core.rows, "s") == {"x", "s:mon"}
    requires core.rows[Key(StudentSchedules, "x")] == Row(at, at, at, None, StudentSchedule("s", "mon", true))
    requires core.rows[Key(StudentSchedules, "s:mon")] == Row(at, at, at, Some(at), StudentSchedule("s", "mon", true))
    ensures ScheduleRecords(env, core.rows, "s", "inherit", [], now) ==
      [ProfileRecord(env, core.rows, "s", "inherit", now),
       DropRecord(env, FromRow(env, "s:mon", core.rows[Key(StudentSchedules, "s:mon")]), now)]
  {
    hide FromRow, ProfileRecord, DropRecord;
    var rows := core.rows;
    var x, mon :=
      FromRow(env, "x", rows[Key(StudentSchedules, "x")]), FromRow(env, "s:mon", rows[Key(StudentSchedules, "s:mon")]);
    assert ["x", "s:mon"][..1] == ["x"] && ["x"][..0] == [];
    assert ByWeekday(env, rows, ["x"]) == map["mon" := x];
    assert ByWeekday(env, rows, ["x", "s:mon"]) == map["mon" := x]["mon" := mon] == map["mon" := mon];
    var existing := Existing(env, rows, "s");
    assert existing == map["mon" := mon] && existing.Keys == {"mon"};
    var order := env.listing({"mon"});
    assert Lists(order, {"mon"});
    OneListed(order, "mon");
    assert Unrequested(["mon"][..0], []) == [];
    assert Unrequested(["mon"], []) == [] + ["mon"];
    assert Dropped(env, existing, []) == ["mon"];
    hide ByWeekday, ScheduleIds;
  }

  lemma OneListed(order: seq<string>, x: string)
    requires Lists(order, {x})
    ensures order == [x]
  {
    assert x in order;
    assert order[0] in order && order[|order| - 1] in order;
  }
}
