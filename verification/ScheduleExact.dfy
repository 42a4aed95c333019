/** Exactly when a schedule replacement that goes through leaves the requested weekdays live, whatever ids the rows
    carry. */
module ScheduleExact {
  import opened Text
  import opened Records
  import opened Tables
  import opened History
  import opened ScheduleSpec
  import opened ScheduleProofs

  /** The row the map of existing schedules keeps for a weekday: the last one listed. */
  ghost function LastListed(rows: Rows, order: seq<string>, weekday: string): Option<string> {
    if order == [] then None
    else
      var n := |order| - 1;
      var row := Lookup(rows, StudentSchedules, order[n]);
      if row.Some? && row.value.body.StudentSchedule? && row.value.body.weekday == weekday then Some(order[n])
      else LastListed(rows, order[..n], weekday)
  }

  ghost function KeptRow(env: Env, rows: Rows, studentId: string, weekday: string): Option<string> {
    LastListed(rows, env.listing(ScheduleIds(rows, studentId)), weekday)
  }

  /** No live row of an unrequested weekday is displaced in the map by a later one, unless the id it carries is about to
      be written for a requested weekday. */
  ghost predicate NoHiddenDay(env: Env, rows: Rows, studentId: string, weekdays: seq<string>) {
    forall k | k in rows && LiveDayOf(rows[k], studentId) && rows[k].body.weekday !in weekdays ::
      KeptRow(env, rows, studentId, rows[k].body.weekday) == Some(k.id) || IsDayId(studentId, weekdays, k.id)
  }

  /** No row that the map keeps for an unrequested weekday carries the id of a requested one. */
  ghost predicate NoLostDay(env: Env, rows: Rows, studentId: string, weekdays: seq<string>) {
    forall u | u !in weekdays && KeptRow(env, rows, studentId, u).Some? ::
      !IsDayId(studentId, weekdays, KeptRow(env, rows, studentId, u).value)
  }

  ghost predicate LiveDayOf(row: Row, studentId: string) {
    row.deletedAt.None? && row.body.StudentSchedule? && row.body.studentId == studentId
  }

  ghost predicate IsDayId(studentId: string, weekdays: seq<string>, id: string) {
    exists d | d in weekdays :: id == DayId(studentId, d)
  }

  // ----- the map ------------------------------------------------------------------------

  lemma {:induction false} ByWeekdayLast(env: Env, rows: Rows, order: seq<string>, w: string)
    ensures w in ByWeekday(env, rows, order) <==> LastListed(rows, order, w).Some?
    ensures LastListed(rows, order, w).Some? ==>
      var id := LastListed(rows, order, w).value;
      var key := Key(StudentSchedules, id);
      && id in order && key in rows && rows[key].body.StudentSchedule? && rows[key].body.weekday == w
      && ByWeekday(env, rows, order)[w] == FromRow(env, id, rows[key])
  {
    hide FromRow;
    if order != [] {
      ByWeekdayLast(env, rows, order[..|order| - 1], w);
      assert order == order[..|order| - 1] + [order[|order| - 1]];
    }
  }

  /** The map holds, for each weekday it has, the row kept for it, which is one of the student's. */
  lemma ExistingKept(env: Env, rows: Rows, studentId: string, w: string)
    requires ValidEnv(env)
    ensures w in Existing(env, rows, studentId) <==> KeptRow(env, rows, studentId, w).Some?
    ensures KeptRow(env, rows, studentId, w).Some? ==>
      var id := KeptRow(env, rows, studentId, w).value;
      var key := Key(StudentSchedules, id);
      && key in rows && rows[key].body.StudentSchedule? && rows[key].body.weekday == w
      && rows[key].body.studentId == studentId
      && Existing(env, rows, studentId)[w] == FromRow(env, id, rows[key])
  {
    hide FromRow, ByWeekday, LastListed;
    ListingLists(env, ScheduleIds(rows, studentId));
    ByWeekdayLast(env, rows, env.listing(ScheduleIds(rows, studentId)), w);
  }

  // ----- the two halves of a replacement ------------------------------------------------------

  /** The records written first: the profile and the requested weekdays. */
  function FirstRecords(env: Env, rows: Rows, studentId: string, mode: string, weekdays: seq<string>,
                        now: Time): seq<Record> {
    [ProfileRecord(env, rows, studentId, mode, now)]
      + DayRecords(env, Existing(env, rows, studentId), studentId, weekdays, now)
  }

  function LastRecords(env: Env, rows: Rows, studentId: string, weekdays: seq<string>, now: Time): seq<Record>
    requires ValidEnv(env)
  {
    var existing := Existing(env, rows, studentId);
    DropRecords(env, existing, Dropped(env, existing, weekdays), now)
  }

  /** Writing records keeps the tables tagged and indexed. */
  lemma {:induction false} BatchKeepsIndexed(env: Env, core: Core, recs: seq<Record>, now: Time)
    requires Tagged(core.rows) && Indexed(core.rows) && WriteAll(env, core, recs, now).Some?
    ensures Tagged(WriteAll(env, core, recs, now).value.rows) && Indexed(WriteAll(env, core, recs, now).value.rows)
  {
    hide ToRow, ForeignKeysHold, FitsIndexes, Indexed, EntityOf, Tagged;
    if recs != [] {
      var n := |recs| - 1;
      var before := WriteAll(env, core, recs[..n], now).value;
      BatchKeepsIndexed(env, core, recs[..n], now);
      WriteKeepsIndexed(before.rows, KeyOf(recs[n]), ToRow(env, recs[n]).value);
      ToRowKeepsEntity(env, recs[n]);
      PutKeepsTagged(before.rows, KeyOf(recs[n]), ToRow(env, recs[n]).value);
    }
  }

  lemma PutKeepsTagged(rows: Rows, key: Key, row: Row)
    requires Tagged(rows) && EntityOf(row.body) == key.entity
    ensures Tagged(Put(rows, key, row))
  {
    hide EntityOf;
  }

  /** What the first half leaves: every requested weekday live under its id; other schedule rows as they were. */
  ghost predicate DaysHeld(before: Rows, after: Rows, studentId: string, weekdays: seq<string>) {
    && (forall d | d in weekdays ::
          var k := Key(StudentSchedules, DayId(studentId, d));
          k in after && after[k].deletedAt.None? && after[k].body == StudentSchedule(studentId, d, true))
    && (forall k: Key | k.entity == StudentSchedules && !IsDayId(studentId, weekdays, k.id) ::
          (k in after <==> k in before) && (k in before ==> after[k] == before[k]))
  }

  lemma FirstHalf(env: Env, core: Core, studentId: string, mode: string, weekdays: seq<string>, now: Time)
    requires WriteAll(env, core, FirstRecords(env, core.rows, studentId, mode, weekdays, now), now).Some?
    ensures DaysHeld(core.rows,
                     WriteAll(env, core, FirstRecords(env, core.rows, studentId, mode, weekdays, now), now).value.rows,
                     studentId, weekdays)
  {
    hide WriteAll, FirstRecords;
    var after := WriteAll(env, core, FirstRecords(env, core.rows, studentId, mode, weekdays, now), now).value.rows;
    forall d | d in weekdays
      ensures var k := Key(StudentSchedules, DayId(studentId, d));
        k in after && after[k].deletedAt.None? && after[k].body == StudentSchedule(studentId, d, true)
    {
      RequestedHeld(env, core, studentId, mode, weekdays, now, d);
    }
    forall k: Key | k.entity == StudentSchedules && !IsDayId(studentId, weekdays, k.id)
      ensures (k in after <==> k in core.rows) && (k in core.rows ==> after[k] == core.rows[k])
    {
      OthersHeld(env, core, studentId, mode, weekdays, now, k);
    }
  }

  lemma RequestedHeld(env: Env, core: Core, studentId: string, mode: string, weekdays: seq<string>, now: Time,
                      d: string)
    requires d in weekdays
    requires WriteAll(env, core, FirstRecords(env, core.rows, studentId, mode, weekdays, now), now).Some?
    ensures var after :=
      WriteAll(env, core, FirstRecords(env, core.rows, studentId, mode, weekdays, now), now).value.rows;
      var k := Key(StudentSchedules, DayId(studentId, d));
      k in after && after[k].deletedAt.None? && after[k].body == StudentSchedule(studentId, d, true)
  {
    hide WriteAll, Existing, DayId, HoldsRecord, ProfileRecord;
    var recs := FirstRecords(env, core.rows, studentId, mode, weekdays, now);
    FirstConsistent(env, core.rows, studentId, mode, weekdays, now);
    var i: nat :| i < |weekdays| && weekdays[i] == d;
    assert recs[1 + i] == DayRecord(env, Existing(env, core.rows, studentId), studentId, d, now);
    WriteAllHolds(env, core, recs, now, recs[1 + i]);
    HeldDay(env, core.rows, WriteAll(env, core, recs, now).value.rows, recs[1 + i]);
  }

  lemma OthersHeld(env: Env, core: Core, studentId: string, mode: string, weekdays: seq<string>, now: Time, k: Key)
    requires k.entity == StudentSchedules && !IsDayId(studentId, weekdays, k.id)
    requires WriteAll(env, core, FirstRecords(env, core.rows, studentId, mode, weekdays, now), now).Some?
    ensures var after :=
      WriteAll(env, core, FirstRecords(env, core.rows, studentId, mode, weekdays, now), now).value.rows;
      (k in after <==> k in core.rows) && (k in core.rows ==> after[k] == core.rows[k])
  {
    hide WriteAll, Existing, DayId;
    var recs := FirstRecords(env, core.rows, studentId, mode, weekdays, now);
    WriteAllEffect(env, core, recs, now);
    forall i | 0 <= i < |recs|
      ensures KeyOf(recs[i]) != k
    {
      assert i > 0 ==> weekdays[i - 1] in weekdays;
    }
  }

  lemma HeldDay(env: Env, before: Rows, after: Rows, rec: Record)
    requires HoldsRecord(env, before, after, rec) && rec.body.StudentSchedule?
    ensures var k := KeyOf(rec);
      && k == Key(StudentSchedules, rec.id) && k in after
      && after[k].body == StudentSchedule(rec.body.studentId, rec.body.weekday, rec.body.isActive)
      && (after[k].deletedAt.None? <==> rec.deletedAt.None?)
  {
  }

  lemma FirstConsistent(env: Env, rows: Rows, studentId: string, mode: string, weekdays: seq<string>, now: Time)
    ensures Consistent(FirstRecords(env, rows, studentId, mode, weekdays, now))
  {
    hide Existing, DayId;
    var recs := FirstRecords(env, rows, studentId, mode, weekdays, now);
    forall i, j | 0 <= i < j < |recs| && KeyOf(recs[i]) == KeyOf(recs[j])
      ensures recs[i] == recs[j]
    {
      if i > 0 {
        DayIdInjective(studentId, weekdays[i - 1], weekdays[j - 1]);
      }
    }
  }

  /** A row that the second half deletes. */
  ghost predicate IsDropped(env: Env, rows: Rows, studentId: string, weekdays: seq<string>, id: string) {
    exists u | u !in weekdays :: KeptRow(env, rows, studentId, u) == Some(id)
  }

  /** What the second half leaves: the kept rows of unrequested weekdays deleted, everything else as it was. */
  lemma SecondHalf(env: Env, rows: Rows, core: Core, studentId: string, weekdays: seq<string>, now: Time, k: Key)
    requires ValidEnv(env) && WriteAll(env, core, LastRecords(env, rows, studentId, weekdays, now), now).Some?
    requires k.entity == StudentSchedules
    ensures var after := WriteAll(env, core, LastRecords(env, rows, studentId, weekdays, now), now).value.rows;
      if IsDropped(env, rows, studentId, weekdays, k.id) then k in after && after[k].deletedAt.Some?
      else (k in after <==> k in core.rows) && (k in core.rows ==> after[k] == core.rows[k])
  {
    var recs := LastRecords(env, rows, studentId, weekdays, now);
    var existing := Existing(env, rows, studentId);
    var dropped := Dropped(env, existing, weekdays);
    var after := WriteAll(env, core, recs, now).value.rows;
    LastConsistent(env, rows, studentId, weekdays, now);
    WriteAllEffect(env, core, recs, now);
    hide WriteAll, Existing, HoldsRecord, KeptRow, ValidEnv, FromRow;
    if IsDropped(env, rows, studentId, weekdays, k.id) {
      var u :| u !in weekdays && KeptRow(env, rows, studentId, u) == Some(k.id);
      ExistingKept(env, rows, studentId, u);
      assert u in dropped;
      var i: nat :| i < |dropped| && dropped[i] == u;
      WriteAllHolds(env, core, recs, now, recs[i]);
      DropShape(env, k.id, rows[k], now);
      HeldDay(env, core.rows, after, recs[i]);
    } else {
      forall i | 0 <= i < |recs|
        ensures KeyOf(recs[i]) != k
      {
        assert dropped[i] in dropped;
        ExistingKept(env, rows, studentId, dropped[i]);
        DropShape(env, KeptRow(env, rows, studentId, dropped[i]).value,
                  rows[Key(StudentSchedules, KeptRow(env, rows, studentId, dropped[i]).value)], now);
      }
    }
  }

  lemma DropShape(env: Env, id: string, row: Row, now: Time)
    requires row.body.StudentSchedule?
    ensures var rec := DropRecord(env, FromRow(env, id, row), now);
      rec.id == id && rec.body.StudentSchedule? && rec.deletedAt.Some? && KeyOf(rec) == Key(StudentSchedules, id)
  {
  }

  lemma LastConsistent(env: Env, rows: Rows, studentId: string, weekdays: seq<string>, now: Time)
    requires ValidEnv(env)
    ensures Consistent(LastRecords(env, rows, studentId, weekdays, now))
  {
    hide Existing, KeptRow, ValidEnv, FromRow, EntityOf;
    var recs := LastRecords(env, rows, studentId, weekdays, now);
    var dropped := Dropped(env, Existing(env, rows, studentId), weekdays);
    forall i, j | 0 <= i < j < |recs| && KeyOf(recs[i]) == KeyOf(recs[j])
      ensures recs[i] == recs[j]
    {
      assert dropped[i] in dropped && dropped[j] in dropped;
      ExistingKept(env, rows, studentId, dropped[i]);
      ExistingKept(env, rows, studentId, dropped[j]);
      KeyIsKept(env, rows, studentId, dropped[i], now);
      KeyIsKept(env, rows, studentId, dropped[j], now);
    }
  }

  lemma KeyIsKept(env: Env, rows: Rows, studentId: string, u: string, now: Time)
    requires ValidEnv(env) && u in Existing(env, rows, studentId)
    ensures var kept := KeptRow(env, rows, studentId, u);
      && kept.Some? && Key(StudentSchedules, kept.value) in rows
      && rows[Key(StudentSchedules, kept.value)].body.StudentSchedule?
      && rows[Key(StudentSchedules, kept.value)].body.weekday == u
      && KeyOf(DropRecord(env, Existing(env, rows, studentId)[u], now)) == Key(StudentSchedules, kept.value)
  {
    hide Existing, KeptRow, FromRow;
    ExistingKept(env, rows, studentId, u);
    DropShape(env, KeptRow(env, rows, studentId, u).value,
              rows[Key(StudentSchedules, KeptRow(env, rows, studentId, u).value)], now);
  }

  // ----- the result -------------------------------------------------------------------------------

  /** The tables between the two halves and after them. */
  ghost predicate Halves(env: Env, rows: Rows, middle: Rows, after: Rows, studentId: string, weekdays: seq<string>) {
    && DaysHeld(rows, middle, studentId, weekdays)
    && (forall k: Key | k.entity == StudentSchedules ::
          if IsDropped(env, rows, studentId, weekdays, k.id) then k in after && after[k].deletedAt.Some?
          else (k in after <==> k in middle) && (k in middle ==> after[k] == middle[k]))
  }

  lemma ReplacementHalves(env: Env, core: Core, studentId: string, mode: string, weekdays: seq<string>, now: Time)
    returns (middle: Rows)
    requires ValidEnv(env) && Tagged(core.rows) && Indexed(core.rows)
    requires ReplaceSchedule(env, core, studentId, mode, weekdays, now).Some?
    ensures var after := ReplaceSchedule(env, core, studentId, mode, weekdays, now).value.rows;
      Halves(env, core.rows, middle, after, studentId, weekdays) && Tagged(after) && Indexed(middle) && Tagged(middle)
  {
    var first := FirstRecords(env, core.rows, studentId, mode, weekdays, now);
    var last := LastRecords(env, core.rows, studentId, weekdays, now);
    assert first + last == ScheduleRecords(env, core.rows, studentId, mode, weekdays, now);
    assert (first + last)[..|first|] == first;
    hide FirstRecords, LastRecords, ScheduleRecords, WriteAll, Tagged, Indexed, DaysHeld, IsDropped, ValidEnv;
    WriteAllPrefix(env, core, first + last, |first|, now);
    WriteAllAppend(env, core, first, last, now);
    var half := WriteAll(env, core, first, now).value;
    middle := half.rows;
    FirstHalf(env, core, studentId, mode, weekdays, now);
    BatchKeepsIndexed(env, core, first, now);
    BatchKeepsIndexed(env, half, last, now);
    forall k: Key | k.entity == StudentSchedules
      ensures var after := ReplaceSchedule(env, core, studentId, mode, weekdays, now).value.rows;
        if IsDropped(env, core.rows, studentId, weekdays, k.id) then k in after && after[k].deletedAt.Some?
        else (k in after <==> k in middle) && (k in middle ==> after[k] == middle[k])
    {
      SecondHalf(env, core.rows, half, studentId, weekdays, now, k);
    }
  }

  /** A replacement that goes through leaves exactly the requested weekdays live if and only if, among the student's
      rows before it, no live row of an unrequested weekday is hidden behind a later one, and no row kept for an
      unrequested weekday carries the id of a requested one. */
  lemma ReplacedExactly(env: Env, core: Core, studentId: string, mode: string, weekdays: seq<string>, now: Time)
    requires ValidEnv(env) && Tagged(core.rows) && Indexed(core.rows)
    requires ReplaceSchedule(env, core, studentId, mode, weekdays, now).Some?
    ensures var after := ReplaceSchedule(env, core, studentId, mode, weekdays, now).value.rows;
      LiveDays(after, studentId) == (set w | w in weekdays) <==>
        NoHiddenDay(env, core.rows, studentId, weekdays) && NoLostDay(env, core.rows, studentId, weekdays)
  {
    var middle := ReplacementHalves(env, core, studentId, mode, weekdays, now);
    var after := ReplaceSchedule(env, core, studentId, mode, weekdays, now).value.rows;
    hide ReplaceSchedule, Halves, Tagged, Indexed, LiveDays, NoHiddenDay, NoLostDay;
    if NoHiddenDay(env, core.rows, studentId, weekdays) && NoLostDay(env, core.rows, studentId, weekdays) {
      RequestedLive(env, core.rows, middle, after, studentId, weekdays);
    }
    if LiveDays(after, studentId) == (set w | w in weekdays) {
      LiveHidesNothing(env, core.rows, middle, after, studentId, weekdays);
      LiveLosesNothing(env, core.rows, middle, after, studentId, weekdays);
    }
  }

  lemma RequestedLive(env: Env, rows: Rows, middle: Rows, after: Rows, studentId: string, weekdays: seq<string>)
    requires Tagged(after) && Halves(env, rows, middle, after, studentId, weekdays)
    requires NoHiddenDay(env, rows, studentId, weekdays) && NoLostDay(env, rows, studentId, weekdays)
    ensures LiveDays(after, studentId) == set w | w in weekdays
  {
    hide DayId, KeptRow;
    forall w | w in weekdays
      ensures w in LiveDays(after, studentId)
    {
      var k := Key(StudentSchedules, DayId(studentId, w));
      assert IsDayId(studentId, weekdays, k.id);
      assert !IsDropped(env, rows, studentId, weekdays, k.id);
      assert k in after && after[k].body.weekday == w;
    }
    forall k | k in after && LiveDayOf(after[k], studentId)
      ensures after[k].body.weekday in weekdays
    {
      assert EntityOf(after[k].body) == k.entity;
      assert !IsDropped(env, rows, studentId, weekdays, k.id);
      if d :| d in weekdays && k.id == DayId(studentId, d) {
        assert after[k].body == StudentSchedule(studentId, d, true);
      } else {
        assert after[k] == rows[k];
      }
    }
  }

  lemma LiveHidesNothing(env: Env, rows: Rows, middle: Rows, after: Rows, studentId: string, weekdays: seq<string>)
    requires ValidEnv(env) && Tagged(rows) && Halves(env, rows, middle, after, studentId, weekdays)
    requires LiveDays(after, studentId) == set w | w in weekdays
    ensures NoHiddenDay(env, rows, studentId, weekdays)
  {
    hide DayId, KeptRow, ValidEnv, Halves, LiveDays;
    forall k | k in rows && LiveDayOf(rows[k], studentId) && rows[k].body.weekday !in weekdays
      ensures KeptRow(env, rows, studentId, rows[k].body.weekday) == Some(k.id) || IsDayId(studentId, weekdays, k.id)
    {
      if KeptRow(env, rows, studentId, rows[k].body.weekday) != Some(k.id) && !IsDayId(studentId, weekdays, k.id) {
        HiddenStaysLive(env, rows, middle, after, studentId, weekdays, k);
      }
    }
  }

  /** A live row that is neither kept nor about to be overwritten is still there afterwards. */
  lemma HiddenStaysLive(env: Env, rows: Rows, middle: Rows, after: Rows, studentId: string, weekdays: seq<string>,
                        k: Key)
    requires ValidEnv(env) && Tagged(rows) && Halves(env, rows, middle, after, studentId, weekdays)
    requires k in rows && LiveDayOf(rows[k], studentId) && !IsDayId(studentId, weekdays, k.id)
    requires KeptRow(env, rows, studentId, rows[k].body.weekday) != Some(k.id)
    ensures rows[k].body.weekday in LiveDays(after, studentId)
  {
    hide DayId, KeptRow, ValidEnv;
    assert EntityOf(rows[k].body) == k.entity;
    forall u | u !in weekdays && KeptRow(env, rows, studentId, u).Some?
      ensures KeptRow(env, rows, studentId, u).value != k.id
    {
      ExistingKept(env, rows, studentId, u);
    }
    assert !IsDropped(env, rows, studentId, weekdays, k.id);
    assert k in after && after[k] == rows[k];
  }

  lemma LiveLosesNothing(env: Env, rows: Rows, middle: Rows, after: Rows, studentId: string, weekdays: seq<string>)
    requires Tagged(after) && Tagged(middle) && Indexed(middle) && Halves(env, rows, middle, after, studentId, weekdays)
    requires LiveDays(after, studentId) == set w | w in weekdays
    ensures NoLostDay(env, rows, studentId, weekdays)
  {
    hide DayId, KeptRow, Halves, LiveDays, Tagged, Indexed;
    forall u, d | u !in weekdays && KeptRow(env, rows, studentId, u).Some? && d in weekdays
      ensures KeptRow(env, rows, studentId, u).value != DayId(studentId, d)
    {
      if KeptRow(env, rows, studentId, u).value == DayId(studentId, d) {
        LostDayIsNotLive(env, rows, middle, after, studentId, weekdays, u, d);
      }
    }
  }

  /** A requested weekday whose id is given to a kept row of another weekday is deleted with that row. */
  lemma LostDayIsNotLive(env: Env, rows: Rows, middle: Rows, after: Rows, studentId: string, weekdays: seq<string>,
                         u: string, d: string)
    requires Tagged(after) && Tagged(middle) && Indexed(middle) && Halves(env, rows, middle, after, studentId, weekdays)
    requires u !in weekdays && d in weekdays && KeptRow(env, rows, studentId, u) == Some(DayId(studentId, d))
    ensures d !in LiveDays(after, studentId)
  {
    hide DayId, KeptRow, Indexed;
    var lost := Key(StudentSchedules, DayId(studentId, d));
    assert IsDropped(env, rows, studentId, weekdays, lost.id);
    forall k | k in after && LiveDayOf(after[k], studentId)
      ensures after[k].body.weekday != d
    {
      assert EntityOf(after[k].body) == k.entity;
      assert k != lost && k in middle && middle[k] == after[k];
      DifferentDays(middle, k, lost, studentId);
    }
  }

  lemma DifferentDays(rows: Rows, k: Key, l: Key, studentId: string)
    requires Indexed(rows) && k in rows && l in rows && k.entity == l.entity && k != l
    requires LiveDayOf(rows[k], studentId) && LiveDayOf(rows[l], studentId)
    ensures rows[k].body.weekday != rows[l].body.weekday
  {
    assert !Collides(rows[k], rows[l]);
  }
}
